/**
 The scanner of the test generator: it reads files line by line, collects test suites, and writes one
 description for every test. Lines come classified; how a line is recognised is not modelled.
 */
module CxxTestGen {
  import opened Wrappers

  /** What the regular expressions find in one line. */
  datatype Line = Line(
    start: Option<string>,       // the name of a suite class
    inlineStart: Option<string>, // the name of an inline suite
    test: Option<string>,        // the name of a test
    create: bool,
    destroy: bool,
    startsBlock: bool,           // of an inline suite
    endsBlock: bool)

  datatype File = File(name: string, lines: seq<Line>)

  datatype Test = Test(name: string, line: nat)

  datatype Suite = Suite(
    name: string,
    file: string,
    line: nat,
    generated: bool,
    tests: seq<Test>,
    create: Option<nat>,
    destroy: Option<nat>,
    blockLines: seq<nat>)

  datatype Error =
    | AlreadyDeclared(file: string, line: nat)
    | CreateWithoutDestroy(file: string, line: nat)
    | DestroyWithoutCreate(file: string, line: nat)
    | NoTestsDefined

  datatype Outcome<T> = Ok(value: T) | Abort(error: Error)

  /** The globals of the scanner. */
  datatype State = State(suite: Option<Suite>, suites: seq<Suite>, inBlock: bool)

  // ---------------------------------------------------------------- one line

  function Verify(s: Suite): Option<Error> {
    if s.create.Some? && s.destroy.None? then Some(CreateWithoutDestroy(s.file, s.create.value))
    else if s.destroy.Some? && s.create.None? then Some(DestroyWithoutCreate(s.file, s.destroy.value))
    else None
  }

  function Close(s: State): Outcome<State> {
    match s.suite
    case None => Ok(s)
    case Some(suite) =>
      if suite.tests == [] then Ok(s.(suite := None))
      else if Verify(suite).Some? then Abort(Verify(suite).value)
      else Ok(s.(suites := s.suites + [suite], suite := None))
  }

  function Start(s: State, name: string, file: string, line: nat, generated: bool): Outcome<State> {
    match Close(s)
    case Abort(e) => Abort(e)
    case Ok(s1) => Ok(s1.(suite := Some(Suite(name, file, line, generated, [], None, None, []))))
  }

  /** A line may start a suite, and then an inline suite. */
  function StartSuites(s: State, file: string, lineNo: nat, line: Line): Outcome<State> {
    match if line.start.Some? then Start(s, line.start.value, file, lineNo, false) else Ok(s)
    case Abort(e) => Abort(e)
    case Ok(s1) =>
      if line.inlineStart.Some? then Start(s1, line.inlineStart.value, file, lineNo, true) else Ok(s1)
  }

  /** Whether the line is scanned for tests. A line of an inline suite is added to its code inside blocks;
      the line that ends a block is added too, but not scanned. */
  function Belongs(s: State, lineNo: nat, line: Line): (State, bool)
    requires s.suite.Some?
  {
    if !s.suite.value.generated then (s, true)
    else if s.inBlock || line.startsBlock then
      (s.(inBlock := !line.endsBlock,
          suite := Some(s.suite.value.(blockLines := s.suite.value.blockLines + [lineNo]))),
       !line.endsBlock)
    else (s, false)
  }

  function AddTest(s: Suite, lineNo: nat, line: Line): Suite {
    if line.test.Some? then s.(tests := s.tests + [Test(line.test.value, lineNo)]) else s
  }

  function AddCreate(s: Suite, lineNo: nat, line: Line): Outcome<Suite> {
    if !line.create then Ok(s)
    else if s.create.Some? then Abort(AlreadyDeclared(s.file, lineNo))
    else Ok(s.(create := Some(lineNo)))
  }

  function AddDestroy(s: Suite, lineNo: nat, line: Line): Outcome<Suite> {
    if !line.destroy then Ok(s)
    else if s.destroy.Some? then Abort(AlreadyDeclared(s.file, lineNo))
    else Ok(s.(destroy := Some(lineNo)))
  }

  function ScanInside(s: Suite, lineNo: nat, line: Line): Outcome<Suite> {
    match AddCreate(AddTest(s, lineNo, line), lineNo, line)
    case Abort(e) => Abort(e)
    case Ok(s1) => AddDestroy(s1, lineNo, line)
  }

  /** The line as part of the current suite, if there is one. */
  function ScanOwned(s: State, lineNo: nat, line: Line): Outcome<State> {
    if s.suite.None? then Ok(s)
    else
      var (s1, belongs) := Belongs(s, lineNo, line);
      if !belongs then Ok(s1)
      else
        match ScanInside(s1.suite.value, lineNo, line)
        case Abort(e) => Abort(e)
        case Ok(suite) => Ok(s1.(suite := Some(suite)))
  }

  function ScanLine(s: State, file: string, lineNo: nat, line: Line): Outcome<State> {
    match StartSuites(s, file, lineNo, line)
    case Abort(e) => Abort(e)
    case Ok(s1) => ScanOwned(s1, lineNo, line)
  }

  /** The first n lines of a file. */
  function ScanLines(s: State, f: File, n: nat): Outcome<State>
    requires n <= |f.lines|
  {
    if n == 0 then Ok(s)
    else
      match ScanLines(s, f, n - 1)
      case Abort(e) => Abort(e)
      case Ok(s1) => ScanLine(s1, f.name, n, f.lines[n - 1])
  }

  function ScanFile(s: State, f: File): Outcome<State> {
    match ScanLines(s, f, |f.lines|)
    case Abort(e) => Abort(e)
    case Ok(s1) => Close(s1)
  }

  function ScanFiles(s: State, files: seq<File>): Outcome<State>
    decreases |files|
  {
    if files == [] then Ok(s)
    else
      match ScanFiles(s, files[..|files| - 1])
      case Abort(e) => Abort(e)
      case Ok(s1) => ScanFile(s1, files[|files| - 1])
  }

  const INITIAL := State(None, [], false)

  /** All files; without tests the generator gives up unless it only writes the root. */
  function Scan(files: seq<File>, root: bool): Outcome<seq<Suite>> {
    match ScanFiles(INITIAL, files)
    case Abort(e) => Abort(e)
    case Ok(s) => if s.suites == [] && !root then Abort(NoTestsDefined) else Ok(s.suites)
  }

  // ---------------------------------------------------------------- the scanner

  /** The outcome of a step that ends with this error, if any, in this state. */
  function Result(error: Option<Error>, s: State): Outcome<State> {
    if error.Some? then Abort(error.value) else Ok(s)
  }

  class Scanner {
    var suite: Option<Suite>
    var suites: seq<Suite>
    var inBlock: bool

    function Now(): State
      reads this
    {
      State(suite, suites, inBlock)
    }

    constructor ()
      ensures Now() == INITIAL
    {
      suite, suites, inBlock := None, [], false;
    }

    method CloseSuite() returns (error: Option<Error>)
      modifies this
      ensures Close(old(Now())) == Result(error, Now())
    {
      error := None;
      if suite.Some? {
        if |suite.value.tests| != 0 {
          if suite.value.create.Some? && suite.value.destroy.None? {
            return Some(CreateWithoutDestroy(suite.value.file, suite.value.create.value));
          }
          if suite.value.destroy.Some? && suite.value.create.None? {
            return Some(DestroyWithoutCreate(suite.value.file, suite.value.destroy.value));
          }
          suites := suites + [suite.value];
        }
        suite := None;
      }
    }

    method StartSuite(name: string, file: string, line: nat, generated: bool) returns (error: Option<Error>)
      modifies this
      ensures Start(old(Now()), name, file, line, generated) == Result(error, Now())
    {
      error := CloseSuite();
      if error.None? {
        suite := Some(Suite(name, file, line, generated, [], None, None, []));
      }
    }

    method LineBelongsToSuite(lineNo: nat, line: Line) returns (belongs: bool)
      requires suite.Some?
      modifies this
      ensures (Now(), belongs) == Belongs(old(Now()), lineNo, line)
    {
      if !suite.value.generated { return true; }
      if !inBlock { inBlock := line.startsBlock; }
      if inBlock {
        suite := Some(suite.value.(blockLines := suite.value.blockLines + [lineNo]));
        inBlock := !line.endsBlock;
      }
      return inBlock;
    }

    method ScanLineInsideSuite(lineNo: nat, line: Line) returns (error: Option<Error>)
      requires suite.Some?
      modifies this
      ensures suite.Some?
      ensures var (s, belongs) := Belongs(old(Now()), lineNo, line);
              if !belongs then error.None? && Now() == s
              else if error.Some? then ScanInside(s.suite.value, lineNo, line) == Abort(error.value)
              else ScanInside(s.suite.value, lineNo, line) == Ok(suite.value) && Now() == s.(suite := suite)
    {
      error := None;
      var belongs := LineBelongsToSuite(lineNo, line);
      if belongs {
        if line.test.Some? {
          suite := Some(suite.value.(tests := suite.value.tests + [Test(line.test.value, lineNo)]));
        }
        if line.create {
          if suite.value.create.Some? { return Some(AlreadyDeclared(suite.value.file, lineNo)); }
          suite := Some(suite.value.(create := Some(lineNo)));
        }
        if line.destroy {
          if suite.value.destroy.Some? { return Some(AlreadyDeclared(suite.value.file, lineNo)); }
          suite := Some(suite.value.(destroy := Some(lineNo)));
        }
      }
    }

    method ScanInputLine(file: string, lineNo: nat, line: Line) returns (error: Option<Error>)
      modifies this
      ensures ScanLine(old(Now()), file, lineNo, line) == Result(error, Now())
    {
      error := None;
      if line.start.Some? {
        error := StartSuite(line.start.value, file, lineNo, false);
        if error.Some? { return; }
      }
      if line.inlineStart.Some? {
        error := StartSuite(line.inlineStart.value, file, lineNo, true);
        if error.Some? { return; }
      }
      if suite.Some? {
        error := ScanLineInsideSuite(lineNo, line);
      }
    }

    method ScanInputFile(f: File) returns (error: Option<Error>)
      modifies this
      ensures ScanFile(old(Now()), f) == Result(error, Now())
    {
      var lineNo := 0;
      while lineNo < |f.lines|
        invariant 0 <= lineNo <= |f.lines|
        invariant ScanLines(old(Now()), f, lineNo) == Ok(Now())
      {
        var line := f.lines[lineNo];
        lineNo := lineNo + 1;
        error := ScanInputLine(f.name, lineNo, line);
        if error.Some? {
          AbortsForGood(old(Now()), f, lineNo);
          return;
        }
      }
      error := CloseSuite();
    }

    method ScanInputFiles(files: seq<File>, root: bool) returns (error: Option<Error>)
      requires Now() == INITIAL
      modifies this
      ensures Scan(files, root) == if error.Some? then Abort(error.value) else Ok(suites)
    {
      var i := 0;
      while i < |files|
        invariant 0 <= i <= |files| && ScanFiles(INITIAL, files[..i]) == Ok(Now())
      {
        assert files[..i + 1][..i] == files[..i];
        error := ScanInputFile(files[i]);
        i := i + 1;
        if error.Some? {
          FilesAbortForGood(INITIAL, files, i);
          return;
        }
      }
      assert files[..|files|] == files;
      error := if |suites| == 0 && !root then Some(NoTestsDefined) else None;
    }
  }

  lemma {:induction false} AbortsForGood(s: State, f: File, n: nat)
    requires n <= |f.lines| && ScanLines(s, f, n).Abort?
    ensures ScanLines(s, f, |f.lines|) == ScanLines(s, f, n)
    decreases |f.lines| - n
  {
    if n < |f.lines| { AbortsForGood(s, f, n + 1); }
  }

  lemma {:induction false} FilesAbortForGood(s: State, files: seq<File>, n: nat)
    requires n <= |files| && ScanFiles(s, files[..n]).Abort?
    ensures ScanFiles(s, files) == ScanFiles(s, files[..n])
    decreases |files| - n
  {
    if n < |files| {
      assert files[..n + 1][..n] == files[..n];
      FilesAbortForGood(s, files, n + 1);
    } else {
      assert files[..n] == files;
    }
  }

  // ---------------------------------------------------------------- suites as segments of a file

  /** A suite of either kind starts here. */
  predicate Starts(f: File, i: nat) {
    i < |f.lines| && (f.lines[i].start.Some? || f.lines[i].inlineStart.Some?)
  }

  /** A line that starts both leaves only the inline suite open. */
  predicate IsInline(f: File, i: nat)
    requires Starts(f, i)
  {
    f.lines[i].inlineStart.Some?
  }

  function NameAt(f: File, i: nat): string
    requires Starts(f, i)
  {
    if IsInline(f, i) then f.lines[i].inlineStart.value else f.lines[i].start.value
  }

  /** The first line from `i` on that starts a suite, or the end of the file. */
  function NextStart(f: File, i: nat): (k: nat)
    requires i <= |f.lines|
    ensures i <= k <= |f.lines| && (k < |f.lines| ==> Starts(f, k)) && forall j :: i <= j < k ==> !Starts(f, j)
    decreases |f.lines| - i
  {
    if i == |f.lines| || Starts(f, i) then i else NextStart(f, i + 1)
  }

  /** Where the suite that starts at line `i` ends. */
  function End(f: File, i: nat): (k: nat)
    requires i < |f.lines|
    ensures i < k <= |f.lines|
  {
    NextStart(f, i + 1)
  }

  /** The last start before line `n`: the suite that owns line n - 1. */
  function Owner(f: File, n: nat): (i: Option<nat>)
    requires n <= |f.lines|
    ensures i.Some? ==> i.value < n && Starts(f, i.value) && forall j :: i.value < j < n ==> !Starts(f, j)
    ensures i.None? ==> forall j :: 0 <= j < n ==> !Starts(f, j)
  {
    if n == 0 then None else if Starts(f, n - 1) then Some(n - 1) else Owner(f, n - 1)
  }

  // ---------------------------------------------------------------- blocks of inline suites

  predicate OwnedInline(f: File, k: nat)
    requires k < |f.lines|
  {
    Owner(f, k + 1).Some? && IsInline(f, Owner(f, k + 1).value)
  }

  /** Whether a block is open before line `n`, if one was (or was not) before the file. Only lines of inline
      suites open and close blocks; a new suite or a new file does not close one. */
  function BlockBefore(b: bool, f: File, n: nat): bool
    requires n <= |f.lines|
  {
    if n == 0 then b
    else if OwnedInline(f, n - 1) then
      (BlockBefore(b, f, n - 1) || f.lines[n - 1].startsBlock) && !f.lines[n - 1].endsBlock
    else BlockBefore(b, f, n - 1)
  }

  /** Line `k` lies in a block or starts one. */
  predicate InBlock(b: bool, f: File, k: nat)
    requires k < |f.lines|
  {
    BlockBefore(b, f, k) || f.lines[k].startsBlock
  }

  /** Whether line `k` is scanned: every line of a plain suite, and of an inline one those inside a block,
      except the line that ends it. */
  predicate Scanned(b: bool, f: File, k: nat)
    requires k < |f.lines|
  {
    Owner(f, k + 1).Some? && (OwnedInline(f, k) ==> InBlock(b, f, k) && !f.lines[k].endsBlock)
  }

  // ---------------------------------------------------------------- what a segment holds

  /** The tests found in lines i to j - 1, in order. */
  function TestsIn(b: bool, f: File, i: nat, j: nat): seq<Test>
    requires i <= j <= |f.lines|
  {
    if i == j then []
    else
      var front := TestsIn(b, f, i, j - 1);
      if f.lines[j - 1].test.Some? && Scanned(b, f, j - 1) then front + [Test(f.lines[j - 1].test.value, j)] else front
  }

  function CreatesIn(b: bool, f: File, i: nat, j: nat): seq<nat>
    requires i <= j <= |f.lines|
  {
    if i == j then []
    else if f.lines[j - 1].create && Scanned(b, f, j - 1) then CreatesIn(b, f, i, j - 1) + [j]
    else CreatesIn(b, f, i, j - 1)
  }

  function DestroysIn(b: bool, f: File, i: nat, j: nat): seq<nat>
    requires i <= j <= |f.lines|
  {
    if i == j then []
    else if f.lines[j - 1].destroy && Scanned(b, f, j - 1) then DestroysIn(b, f, i, j - 1) + [j]
    else DestroysIn(b, f, i, j - 1)
  }

  /** The lines of code of an inline suite. */
  function CodeIn(b: bool, f: File, i: nat, j: nat): seq<nat>
    requires i <= j <= |f.lines|
  {
    if i == j then []
    else if OwnedInline(f, j - 1) && InBlock(b, f, j - 1) then CodeIn(b, f, i, j - 1) + [j]
    else CodeIn(b, f, i, j - 1)
  }

  function First(s: seq<nat>): Option<nat> {
    if s == [] then None else Some(s[0])
  }

  /** The suite that starts at line `i`, as far as line j - 1. */
  function Segment(b: bool, f: File, i: nat, j: nat): Suite
    requires i <= j <= |f.lines| && Starts(f, i)
  {
    Suite(NameAt(f, i), f.name, i + 1, IsInline(f, i), TestsIn(b, f, i, j),
          First(CreatesIn(b, f, i, j)), First(DestroysIn(b, f, i, j)), CodeIn(b, f, i, j))
  }

  /** At most one createSuite() and one destroySuite(). */
  predicate DeclaredOnce(b: bool, f: File, i: nat, j: nat)
    requires i <= j <= |f.lines|
  {
    |CreatesIn(b, f, i, j)| <= 1 && |DestroysIn(b, f, i, j)| <= 1
  }

  /** A suite without tests is not looked at any further. */
  predicate Paired(b: bool, f: File, i: nat, j: nat)
    requires i <= j <= |f.lines|
  {
    TestsIn(b, f, i, j) == [] || (CreatesIn(b, f, i, j) == [] <==> DestroysIn(b, f, i, j) == [])
  }

  predicate AcceptableSuite(b: bool, f: File, i: nat)
    requires Starts(f, i)
  {
    DeclaredOnce(b, f, i, End(f, i)) && Paired(b, f, i, End(f, i))
  }

  /** What makes a file acceptable. */
  predicate Acceptable(b: bool, f: File) {
    forall i {:trigger AcceptableSuite(b, f, i)} ::
      0 <= i < |f.lines| && Starts(f, i) ==> AcceptableSuite(b, f, i)
  }

  /** The suites with tests that start before line `n`, in order. */
  function SuitesBefore(b: bool, f: File, n: nat): seq<Suite>
    requires n <= |f.lines|
  {
    if n == 0 then []
    else if Starts(f, n - 1) then SuitesBefore(b, f, n - 1) + Kept(Segment(b, f, n - 1, End(f, n - 1)))
    else SuitesBefore(b, f, n - 1)
  }

  /** Suites without tests are not remembered. */
  function Kept(s: Suite): seq<Suite> {
    if s.tests == [] then [] else [s]
  }

  function SuitesOf(b: bool, f: File): seq<Suite> {
    SuitesBefore(b, f, |f.lines|)
  }

  // ---------------------------------------------------------------- scanning finds the segments

  function Current(b: bool, f: File, n: nat): Option<Suite>
    requires n <= |f.lines|
  {
    match Owner(f, n)
    case Some(i) => Some(Segment(b, f, i, n))
    case None => None
  }

  /** The suites closed by the first n lines. */
  function ClosedBefore(b: bool, f: File, n: nat): seq<Suite>
    requires n <= |f.lines|
  {
    match Owner(f, n)
    case Some(i) => SuitesBefore(b, f, i)
    case None => []
  }

  /** The scanner after n lines that it has accepted, starting from `s` between two files. */
  function StateAfter(s: State, f: File, n: nat): State
    requires n <= |f.lines|
  {
    State(Current(s.inBlock, f, n), s.suites + ClosedBefore(s.inBlock, f, n), BlockBefore(s.inBlock, f, n))
  }

  /** The first n lines are acceptable: suites ended by another start are paired. */
  predicate AcceptableSoFar(b: bool, f: File, n: nat)
    requires n <= |f.lines|
  {
    n == 0 ||
    (&& AcceptableSoFar(b, f, n - 1)
     && (Starts(f, n - 1) && Owner(f, n - 1).Some? ==> Paired(b, f, Owner(f, n - 1).value, n - 1))
     && (Owner(f, n).Some? ==> DeclaredOnce(b, f, Owner(f, n).value, n)))
  }

  lemma {:induction false} NoSuitesBetween(b: bool, f: File, i: nat, n: nat)
    requires i < n <= |f.lines| && Starts(f, i) && forall j :: i < j < n ==> !Starts(f, j)
    ensures SuitesBefore(b, f, n) == SuitesBefore(b, f, i + 1)
    decreases n
  {
    if i + 1 < n { NoSuitesBetween(b, f, i, n - 1); }
  }

  lemma {:induction false} NextStartIs(f: File, i: nat, n: nat)
    requires i <= n <= |f.lines| && (n < |f.lines| ==> Starts(f, n)) && forall j :: i <= j < n ==> !Starts(f, j)
    ensures NextStart(f, i) == n
    decreases n - i
  {
    if i < n { NextStartIs(f, i + 1, n); }
  }

  /** Closing the suite that starts at `i` when it ends before line `n`. */
  lemma CloseSegment(b: bool, f: File, i: nat, n: nat, s: State)
    requires i < n <= |f.lines| && Starts(f, i) && End(f, i) == n && s.suite == Some(Segment(b, f, i, n))
    ensures Close(s).Ok? <==> Paired(b, f, i, n)
    ensures Close(s).Ok? ==> Close(s).value == State(None, s.suites + Kept(Segment(b, f, i, n)), s.inBlock)
    ensures SuitesBefore(b, f, n) == SuitesBefore(b, f, i) + Kept(Segment(b, f, i, n))
  {
    NoSuitesBetween(b, f, i, n);
  }

  /** A line that starts a suite, of one kind or of both: the one before is closed, and one new suite is open. */
  lemma StartLine(f: File, n: nat, s: State)
    requires Starts(f, n)
    ensures StartSuites(s, f.name, n + 1, f.lines[n]) ==
            match Close(s)
            case Abort(e) => Abort(e)
            case Ok(s1) => Ok(s1.(suite := Some(Segment(s.inBlock, f, n, n))))
  { }

  /** The block automaton: which line of a suite belongs to it, and what it leaves. */
  lemma BelongsIs(b: bool, f: File, i: nat, n: nat, s: State)
    requires i <= n < |f.lines| && Owner(f, n + 1) == Some(i)
    requires s.suite == Some(Segment(b, f, i, n)) && s.inBlock == BlockBefore(b, f, n)
    ensures Belongs(s, n + 1, f.lines[n]) ==
            (State(Some(Segment(b, f, i, n).(blockLines := CodeIn(b, f, i, n + 1))), s.suites,
                   BlockBefore(b, f, n + 1)),
             Scanned(b, f, n))
  { }

  /** One more line of a segment. */
  lemma ScanSegment(b: bool, f: File, i: nat, n: nat, s: State)
    requires i <= n < |f.lines| && Owner(f, n + 1) == Some(i) && DeclaredOnce(b, f, i, n)
    requires s.suite == Some(Segment(b, f, i, n)) && s.inBlock == BlockBefore(b, f, n)
    ensures ScanOwned(s, n + 1, f.lines[n]).Ok? <==> DeclaredOnce(b, f, i, n + 1)
    ensures ScanOwned(s, n + 1, f.lines[n]).Ok? ==>
              ScanOwned(s, n + 1, f.lines[n]).value ==
                State(Some(Segment(b, f, i, n + 1)), s.suites, BlockBefore(b, f, n + 1))
  {
    BelongsIs(b, f, i, n, s);
  }

  /** Scanning aborts exactly on lines that are not acceptable, and otherwise holds the closed suites and
      the segment scanned so far. */
  lemma {:induction false} ScanLinesIs(s: State, f: File, n: nat)
    requires s.suite == None && n <= |f.lines|
    ensures ScansAs(s, f, n)
    decreases n
  {
    if n == 0 {
      NothingScanned(s, f);
    } else {
      ScanLinesIs(s, f, n - 1);
      OneMoreScanned(s, f, n - 1);
    }
  }

  predicate ScansAs(s: State, f: File, n: nat)
    requires n <= |f.lines|
  {
    && (ScanLines(s, f, n).Ok? <==> AcceptableSoFar(s.inBlock, f, n))
    && (ScanLines(s, f, n).Ok? ==> ScanLines(s, f, n).value == StateAfter(s, f, n))
  }

  lemma NothingScanned(s: State, f: File)
    requires s.suite == None
    ensures ScansAs(s, f, 0)
  {
    assert s.suites + [] == s.suites;
  }

  lemma OneMoreScanned(s: State, f: File, n: nat)
    requires s.suite == None && n < |f.lines| && ScansAs(s, f, n)
    ensures ScansAs(s, f, n + 1)
  {
    if AcceptableSoFar(s.inBlock, f, n) { NextIs(s, f, n); }
  }

  lemma NextIs(s: State, f: File, n: nat)
    requires s.suite == None && n < |f.lines| && AcceptableSoFar(s.inBlock, f, n)
    ensures ScanLine(StateAfter(s, f, n), f.name, n + 1, f.lines[n]).Ok? <==> AcceptableSoFar(s.inBlock, f, n + 1)
    ensures ScanLine(StateAfter(s, f, n), f.name, n + 1, f.lines[n]).Ok? ==>
              ScanLine(StateAfter(s, f, n), f.name, n + 1, f.lines[n]).value == StateAfter(s, f, n + 1)
  {
    if Starts(f, n) { NextIsStart(s, f, n); } else { NextIsInside(s, f, n); }
  }

  lemma NextIsStart(s: State, f: File, n: nat)
    requires s.suite == None && n < |f.lines| && Starts(f, n) && AcceptableSoFar(s.inBlock, f, n)
    ensures ScanLine(StateAfter(s, f, n), f.name, n + 1, f.lines[n]).Ok? <==> AcceptableSoFar(s.inBlock, f, n + 1)
    ensures ScanLine(StateAfter(s, f, n), f.name, n + 1, f.lines[n]).Ok? ==>
              ScanLine(StateAfter(s, f, n), f.name, n + 1, f.lines[n]).value == StateAfter(s, f, n + 1)
  {
    var b, s0 := s.inBlock, StateAfter(s, f, n);
    StartLine(f, n, s0);
    CloseBeforeStart(s, f, n);
    EmptySegment(b, s0.inBlock, f, n);
    StateAtStart(s, f, n);
    if Close(s0).Ok? {
      ScanSegment(b, f, n, n, State(Some(Segment(b, f, n, n)), s.suites + SuitesBefore(b, f, n), BlockBefore(b, f, n)));
    }
  }

  lemma StateAtStart(s: State, f: File, n: nat)
    requires n < |f.lines| && Starts(f, n) && AcceptableSoFar(s.inBlock, f, n)
    ensures StateAfter(s, f, n + 1) == State(Some(Segment(s.inBlock, f, n, n + 1)),
                                             s.suites + SuitesBefore(s.inBlock, f, n),
                                             BlockBefore(s.inBlock, f, n + 1))
    ensures AcceptableSoFar(s.inBlock, f, n + 1) <==>
            && DeclaredOnce(s.inBlock, f, n, n + 1)
            && (Owner(f, n).Some? ==> Paired(s.inBlock, f, Owner(f, n).value, n))
  { }

  /** Nothing has been scanned of a suite before its first line. */
  lemma EmptySegment(b: bool, c: bool, f: File, n: nat)
    requires Starts(f, n)
    ensures Segment(b, f, n, n) == Segment(c, f, n, n)
    ensures DeclaredOnce(b, f, n, n)
  { }

  /** What is closed when the next suite starts, or the file ends. */
  lemma CloseBeforeStart(s: State, f: File, n: nat)
    requires s.suite == None && n <= |f.lines| && (n < |f.lines| ==> Starts(f, n))
    ensures Close(StateAfter(s, f, n)).Ok? <==> (Owner(f, n).Some? ==> Paired(s.inBlock, f, Owner(f, n).value, n))
    ensures Close(StateAfter(s, f, n)).Ok? ==>
              Close(StateAfter(s, f, n)).value ==
              State(None, s.suites + SuitesBefore(s.inBlock, f, n), BlockBefore(s.inBlock, f, n))
  {
    match Owner(f, n)
    case Some(i) =>
      NextStartIs(f, i + 1, n);
      CloseSegment(s.inBlock, f, i, n, StateAfter(s, f, n));
      Reassociate(s.suites, SuitesBefore(s.inBlock, f, i), Kept(Segment(s.inBlock, f, i, n)));
    case None =>
      NoSuitesYet(s.inBlock, f, n);
  }

  lemma Reassociate<T>(a: seq<T>, b: seq<T>, c: seq<T>)
    ensures (a + b) + c == a + (b + c)
  { }

  lemma {:induction false} NoSuitesYet(b: bool, f: File, n: nat)
    requires n <= |f.lines| && forall j :: 0 <= j < n ==> !Starts(f, j)
    ensures SuitesBefore(b, f, n) == []
    decreases n
  {
    if n > 0 { NoSuitesYet(b, f, n - 1); }
  }

  lemma NextIsInside(s: State, f: File, n: nat)
    requires s.suite == None && n < |f.lines| && !Starts(f, n) && AcceptableSoFar(s.inBlock, f, n)
    ensures ScanLine(StateAfter(s, f, n), f.name, n + 1, f.lines[n]).Ok? <==> AcceptableSoFar(s.inBlock, f, n + 1)
    ensures ScanLine(StateAfter(s, f, n), f.name, n + 1, f.lines[n]).Ok? ==>
              ScanLine(StateAfter(s, f, n), f.name, n + 1, f.lines[n]).value == StateAfter(s, f, n + 1)
  {
    if Owner(f, n).Some? {
      OwnerIsDeclaredOnce(s.inBlock, f, n);
      ScanSegment(s.inBlock, f, Owner(f, n).value, n, StateAfter(s, f, n));
    }
  }

  lemma OwnerIsDeclaredOnce(b: bool, f: File, n: nat)
    requires n <= |f.lines| && AcceptableSoFar(b, f, n) && Owner(f, n).Some?
    ensures DeclaredOnce(b, f, Owner(f, n).value, n)
  { }

  // ---------------------------------------------------------------- acceptance

  lemma {:induction false} DeclaredOnceEarlier(b: bool, f: File, i: nat, j: nat, k: nat)
    requires i <= j <= k <= |f.lines| && DeclaredOnce(b, f, i, k)
    ensures DeclaredOnce(b, f, i, j)
    decreases k
  {
    if j < k { DeclaredOnceEarlier(b, f, i, j, k - 1); }
  }

  function Min(a: nat, b: nat): nat { if a < b then a else b }

  /** The suite that starts at line `i` is acceptable as far as line n - 1. */
  predicate AcceptableTo(b: bool, f: File, i: nat, n: nat)
    requires i < n <= |f.lines|
  {
    DeclaredOnce(b, f, i, Min(End(f, i), n)) && (End(f, i) < n ==> Paired(b, f, i, End(f, i)))
  }

  /** All suites that start before line `n` are. */
  predicate AcceptableBefore(b: bool, f: File, n: nat)
    requires n <= |f.lines|
  {
    forall i {:trigger AcceptableTo(b, f, i, n)} :: 0 <= i < n && Starts(f, i) ==> AcceptableTo(b, f, i, n)
  }

  /** The scanner, which looks at one line after the other, sees what the suites as a whole are. */
  predicate SameSoFar(b: bool, f: File, n: nat)
    requires n <= |f.lines|
  {
    AcceptableSoFar(b, f, n) <==> AcceptableBefore(b, f, n)
  }

  lemma {:induction false} AcceptableSoFarIff(b: bool, f: File, n: nat)
    requires n <= |f.lines|
    ensures SameSoFar(b, f, n)
    decreases n
  {
    if n == 0 {
      NothingToAccept(b, f, n);
    } else {
      AcceptableSoFarIff(b, f, n - 1);
      NextAcceptable(b, f, n - 1, n);
    }
  }

  lemma NothingToAccept(b: bool, f: File, n: nat)
    requires n == 0
    ensures SameSoFar(b, f, n)
  { }

  lemma NextAcceptable(b: bool, f: File, m: nat, n: nat)
    requires m + 1 == n <= |f.lines| && SameSoFar(b, f, m)
    ensures SameSoFar(b, f, n)
  {
    if AcceptableBefore(b, f, n) { AcceptableEarlier(b, f, n); }
    if AcceptableSoFar(b, f, n) { AcceptableLater(b, f, n); }
  }

  lemma OwnerEndsLater(f: File, n: nat)
    requires 0 < n <= |f.lines| && Owner(f, n).Some?
    ensures n <= End(f, Owner(f, n).value)
  { }

  lemma AcceptableEarlier(b: bool, f: File, n: nat)
    requires 0 < n <= |f.lines| && AcceptableBefore(b, f, n) && SameSoFar(b, f, n - 1)
    ensures AcceptableSoFar(b, f, n)
  {
    forall i | 0 <= i < n - 1 && Starts(f, i) ensures AcceptableTo(b, f, i, n - 1) {
      SuiteEarlier(b, f, i, n);
    }
    OwnerIsAcceptable(b, f, n);
  }

  lemma SuiteEarlier(b: bool, f: File, i: nat, n: nat)
    requires i < n - 1 < |f.lines| && AcceptableTo(b, f, i, n)
    ensures AcceptableTo(b, f, i, n - 1)
  {
    DeclaredOnceEarlier(b, f, i, Min(End(f, i), n - 1), Min(End(f, i), n));
  }

  lemma OwnerIsAcceptable(b: bool, f: File, n: nat)
    requires 0 < n <= |f.lines| && AcceptableBefore(b, f, n)
    ensures Owner(f, n).Some? ==> DeclaredOnce(b, f, Owner(f, n).value, n)
    ensures Starts(f, n - 1) && Owner(f, n - 1).Some? ==> Paired(b, f, Owner(f, n - 1).value, n - 1)
  {
    if Owner(f, n).Some? { OpenIsDeclaredOnce(b, f, Owner(f, n).value, n); }
    if Starts(f, n - 1) && Owner(f, n - 1).Some? { ClosedIsPaired(b, f, Owner(f, n - 1).value, n); }
  }

  lemma OpenIsDeclaredOnce(b: bool, f: File, i: nat, n: nat)
    requires i < n <= |f.lines| && Owner(f, n) == Some(i) && AcceptableBefore(b, f, n)
    ensures DeclaredOnce(b, f, i, n)
  {
    OwnerEndsLater(f, n);
    assert AcceptableTo(b, f, i, n);
  }

  lemma ClosedIsPaired(b: bool, f: File, i: nat, n: nat)
    requires i < n - 1 < |f.lines| && Owner(f, n - 1) == Some(i) && Starts(f, n - 1) && AcceptableBefore(b, f, n)
    ensures Paired(b, f, i, n - 1)
  {
    NextStartIs(f, i + 1, n - 1);
    assert AcceptableTo(b, f, i, n);
  }

  lemma AcceptableLater(b: bool, f: File, n: nat)
    requires 0 < n <= |f.lines| && AcceptableSoFar(b, f, n) && SameSoFar(b, f, n - 1)
    ensures AcceptableBefore(b, f, n)
  {
    forall i | 0 <= i < n && Starts(f, i) ensures AcceptableTo(b, f, i, n) {
      if i < n - 1 { assert AcceptableTo(b, f, i, n - 1); }
      SuiteLater(b, f, i, n);
    }
  }

  lemma SuiteLater(b: bool, f: File, i: nat, n: nat)
    requires i < n <= |f.lines| && Starts(f, i) && AcceptableSoFar(b, f, n)
    requires i < n - 1 ==> AcceptableTo(b, f, i, n - 1)
    ensures AcceptableTo(b, f, i, n)
  {
    if n <= End(f, i) {
      OwnerIs(f, i, n);
      OwnerIsDeclaredOnce(b, f, n);
    } else if End(f, i) == n - 1 {
      ClosedNow(b, f, i, n);
    }
  }

  lemma ClosedNow(b: bool, f: File, i: nat, n: nat)
    requires i < n - 1 < |f.lines| && Starts(f, i) && AcceptableSoFar(b, f, n) && End(f, i) == n - 1
    ensures Paired(b, f, i, n - 1)
  {
    OwnerIs(f, i, n - 1);
  }

  lemma {:induction false} OwnerIs(f: File, i: nat, n: nat)
    requires i < n <= |f.lines| && Starts(f, i) && n <= End(f, i)
    ensures Owner(f, n) == Some(i)
    decreases n
  {
    if i + 1 < n { OwnerIs(f, i, n - 1); }
  }

  /** Scanning a file aborts exactly if in some suite createSuite() or destroySuite() is found twice, or one
      of them without the other and with a test. Otherwise the remembered suites are exactly the segments
      with tests from one start to the next, in order, and the block left open is that of the automaton. */
  lemma ScanFileIff(s: State, f: File)
    requires s.suite == None
    ensures ScanFile(s, f).Ok? <==> Acceptable(s.inBlock, f)
    ensures ScanFile(s, f).Ok? ==>
              ScanFile(s, f).value == State(None, s.suites + SuitesOf(s.inBlock, f),
                                            BlockBefore(s.inBlock, f, |f.lines|))
  {
    var n := |f.lines|;
    ScanLinesIs(s, f, n);
    AcceptableSoFarIff(s.inBlock, f, n);
    AcceptableAtEnd(s.inBlock, f);
    CloseBeforeStart(s, f, n);
  }

  lemma AcceptableAtEnd(b: bool, f: File)
    ensures Acceptable(b, f) <==>
            && AcceptableBefore(b, f, |f.lines|)
            && (Owner(f, |f.lines|).Some? ==> Paired(b, f, Owner(f, |f.lines|).value, |f.lines|))
  {
    if Acceptable(b, f) { AcceptableThenBefore(b, f); }
    var owner := Owner(f, |f.lines|);
    if AcceptableBefore(b, f, |f.lines|) && (owner.Some? ==> Paired(b, f, owner.value, |f.lines|)) {
      BeforeThenAcceptable(b, f);
    }
  }

  lemma SuiteToTheEnd(b: bool, f: File, i: nat)
    requires i < |f.lines| && Starts(f, i) && Acceptable(b, f)
    ensures AcceptableTo(b, f, i, |f.lines|)
  {
    assert AcceptableSuite(b, f, i);
  }

  lemma AcceptableThenBefore(b: bool, f: File)
    requires Acceptable(b, f)
    ensures AcceptableBefore(b, f, |f.lines|)
    ensures Owner(f, |f.lines|).Some? ==> Paired(b, f, Owner(f, |f.lines|).value, |f.lines|)
  {
    var n := |f.lines|;
    forall i | 0 <= i < n && Starts(f, i) ensures AcceptableTo(b, f, i, n) {
      SuiteToTheEnd(b, f, i);
    }
    if Owner(f, n).Some? {
      NextStartIs(f, Owner(f, n).value + 1, n);
      assert AcceptableSuite(b, f, Owner(f, n).value);
    }
  }

  lemma BeforeThenAcceptable(b: bool, f: File)
    requires AcceptableBefore(b, f, |f.lines|)
    requires Owner(f, |f.lines|).Some? ==> Paired(b, f, Owner(f, |f.lines|).value, |f.lines|)
    ensures Acceptable(b, f)
  {
    var n := |f.lines|;
    forall i | 0 <= i < n && Starts(f, i) ensures AcceptableSuite(b, f, i) {
      assert AcceptableTo(b, f, i, n);
      if End(f, i) == n { OwnerIs(f, i, n); }
    }
  }

  // ---------------------------------------------------------------- what a suite is

  /** Line l lies in the segment from `i` to before `j`. */
  predicate Within(f: File, i: nat, j: nat, l: nat)
    requires j <= |f.lines|
  {
    i < l <= j
  }

  lemma {:induction false} CodeMembers(b: bool, f: File, i: nat, j: nat, l: nat)
    requires i <= j <= |f.lines|
    ensures l in CodeIn(b, f, i, j) <==> Within(f, i, j, l) && OwnedInline(f, l - 1) && InBlock(b, f, l - 1)
    decreases j
  {
    if i < j { CodeMembers(b, f, i, j - 1, l); }
  }

  lemma {:induction false} CreatesMembers(b: bool, f: File, i: nat, j: nat, l: nat)
    requires i <= j <= |f.lines|
    ensures l in CreatesIn(b, f, i, j) <==> Within(f, i, j, l) && f.lines[l - 1].create && Scanned(b, f, l - 1)
    decreases j
  {
    if i < j { CreatesMembers(b, f, i, j - 1, l); }
  }

  lemma {:induction false} DestroysMembers(b: bool, f: File, i: nat, j: nat, l: nat)
    requires i <= j <= |f.lines|
    ensures l in DestroysIn(b, f, i, j) <==> Within(f, i, j, l) && f.lines[l - 1].destroy && Scanned(b, f, l - 1)
    decreases j
  {
    if i < j { DestroysMembers(b, f, i, j - 1, l); }
  }

  /** The suite is the one that the line at `i` starts: its name and kind are those of the line, its code are
      the lines inside blocks, and it declares createSuite() and destroySuite() on scanned lines that do. */
  ghost predicate DeclaredAt(b: bool, f: File, i: nat, s: Suite)
    requires i < |f.lines|
  {
    var line := f.lines[i];
    && s.file == f.name && s.line == i + 1
    && (if line.inlineStart.Some? then s.generated && s.name == line.inlineStart.value
        else line.start.Some? && !s.generated && s.name == line.start.value)
    && CodeAt(b, f, i, s) && CreateAt(b, f, i, s) && DestroyAt(b, f, i, s)
  }

  ghost predicate CodeAt(b: bool, f: File, i: nat, s: Suite)
    requires i < |f.lines|
  {
    forall l: nat :: l in s.blockLines <==> Within(f, i, End(f, i), l) && OwnedInline(f, l - 1) && InBlock(b, f, l - 1)
  }

  ghost predicate CreateAt(b: bool, f: File, i: nat, s: Suite)
    requires i < |f.lines|
  {
    && (s.create.Some? ==> var l := s.create.value;
                           Within(f, i, End(f, i), l) && f.lines[l - 1].create && Scanned(b, f, l - 1))
    && (s.create.None? ==>
          forall l: nat :: Within(f, i, End(f, i), l) && Scanned(b, f, l - 1) ==> !f.lines[l - 1].create)
  }

  ghost predicate DestroyAt(b: bool, f: File, i: nat, s: Suite)
    requires i < |f.lines|
  {
    && (s.destroy.Some? ==> var l := s.destroy.value;
                            Within(f, i, End(f, i), l) && f.lines[l - 1].destroy && Scanned(b, f, l - 1))
    && (s.destroy.None? ==>
          forall l: nat :: Within(f, i, End(f, i), l) && Scanned(b, f, l - 1) ==> !f.lines[l - 1].destroy)
  }

  lemma SegmentIsDeclared(b: bool, f: File, i: nat)
    requires Starts(f, i)
    ensures DeclaredAt(b, f, i, Segment(b, f, i, End(f, i)))
  {
    SegmentCode(b, f, i);
    SegmentCreates(b, f, i);
    SegmentDestroys(b, f, i);
  }

  lemma SegmentCode(b: bool, f: File, i: nat)
    requires Starts(f, i)
    ensures CodeAt(b, f, i, Segment(b, f, i, End(f, i)))
  {
    forall l: nat
      ensures l in CodeIn(b, f, i, End(f, i)) <==>
              Within(f, i, End(f, i), l) && OwnedInline(f, l - 1) && InBlock(b, f, l - 1)
    {
      CodeMembers(b, f, i, End(f, i), l);
    }
  }

  lemma SegmentCreates(b: bool, f: File, i: nat)
    requires Starts(f, i)
    ensures CreateAt(b, f, i, Segment(b, f, i, End(f, i)))
  {
    var creates := CreatesIn(b, f, i, End(f, i));
    forall l: nat
      ensures l in creates <==> Within(f, i, End(f, i), l) && f.lines[l - 1].create && Scanned(b, f, l - 1)
    {
      CreatesMembers(b, f, i, End(f, i), l);
    }
    if creates != [] { assert creates[0] in creates; }
  }

  lemma SegmentDestroys(b: bool, f: File, i: nat)
    requires Starts(f, i)
    ensures DestroyAt(b, f, i, Segment(b, f, i, End(f, i)))
  {
    var destroys := DestroysIn(b, f, i, End(f, i));
    forall l: nat
      ensures l in destroys <==> Within(f, i, End(f, i), l) && f.lines[l - 1].destroy && Scanned(b, f, l - 1)
    {
      DestroysMembers(b, f, i, End(f, i), l);
    }
    if destroys != [] { assert destroys[0] in destroys; }
  }

  /** Every remembered suite is the one that some line of the file declares. */
  lemma {:induction false} SuitesAreDeclared(b: bool, f: File, n: nat, s: Suite)
    requires n <= |f.lines| && s in SuitesBefore(b, f, n)
    ensures exists i :: 0 <= i < n && DeclaredAt(b, f, i, s)
    decreases n
  {
    if s in SuitesBefore(b, f, n - 1) {
      SuitesAreDeclared(b, f, n - 1, s);
    } else {
      SegmentIsDeclared(b, f, n - 1);
    }
  }

  // ---------------------------------------------------------------- what an abort reports

  /** The suite that starts at line `i` has tests, and one of createSuite() and destroySuite() without the other,
      which stands on this line. */
  predicate Unpaired(b: bool, f: File, i: nat, creates: bool, line: nat)
    requires i < |f.lines| && Starts(f, i)
  {
    && TestsIn(b, f, i, End(f, i)) != []
    && CreatesIn(b, f, i, End(f, i)) == (if creates then [line] else [])
    && DestroysIn(b, f, i, End(f, i)) == (if creates then [] else [line])
  }

  ghost predicate SomeUnpaired(b: bool, f: File, creates: bool, line: nat) {
    exists i :: 0 <= i < |f.lines| && Starts(f, i) && Unpaired(b, f, i, creates, line)
  }

  /** On line n, which is scanned, a suite declares createSuite() or destroySuite() again. */
  predicate DeclaresAgain(b: bool, f: File, n: nat) {
    && 0 < n <= |f.lines| && Scanned(b, f, n - 1)
    && var i := Owner(f, n).value;
    || (f.lines[n - 1].create && CreatesIn(b, f, i, n - 1) != [])
    || (f.lines[n - 1].destroy && DestroysIn(b, f, i, n - 1) != [])
  }

  /** The error says what is wrong with the file, and where. */
  ghost predicate Culprit(b: bool, f: File, e: Error) {
    match e
    case AlreadyDeclared(file, line) => file == f.name && DeclaresAgain(b, f, line)
    case CreateWithoutDestroy(file, line) => file == f.name && SomeUnpaired(b, f, true, line)
    case DestroyWithoutCreate(file, line) => file == f.name && SomeUnpaired(b, f, false, line)
    case NoTestsDefined => false
  }

  lemma OwnedAborts(b: bool, f: File, i: nat, n: nat, s: State)
    requires i <= n < |f.lines| && Owner(f, n + 1) == Some(i)
    requires s.suite == Some(Segment(b, f, i, n)) && s.inBlock == BlockBefore(b, f, n)
    requires ScanOwned(s, n + 1, f.lines[n]).Abort?
    ensures ScanOwned(s, n + 1, f.lines[n]).error == AlreadyDeclared(f.name, n + 1) && DeclaresAgain(b, f, n + 1)
  {
    BelongsIs(b, f, i, n, s);
  }

  lemma CloseAborts(s: State, f: File, n: nat)
    requires s.suite == None && n <= |f.lines| && (n < |f.lines| ==> Starts(f, n)) && AcceptableSoFar(s.inBlock, f, n)
    requires Close(StateAfter(s, f, n)).Abort?
    ensures Culprit(s.inBlock, f, Close(StateAfter(s, f, n)).error)
  {
    OpenWhenAborting(s, f, n);
    EndsHere(f, Owner(f, n).value, n);
    OwnerIsDeclaredOnce(s.inBlock, f, n);
    SegmentAborts(s.inBlock, f, Owner(f, n).value, StateAfter(s, f, n));
  }

  lemma OpenWhenAborting(s: State, f: File, n: nat)
    requires n <= |f.lines| && Close(StateAfter(s, f, n)).Abort?
    ensures Owner(f, n).Some? && StateAfter(s, f, n).suite == Some(Segment(s.inBlock, f, Owner(f, n).value, n))
  { }

  lemma EndsHere(f: File, i: nat, n: nat)
    requires n <= |f.lines| && (n < |f.lines| ==> Starts(f, n)) && Owner(f, n) == Some(i)
    ensures i < n && End(f, i) == n
  {
    NextStartIs(f, i + 1, n);
  }

  lemma SegmentAborts(b: bool, f: File, i: nat, s: State)
    requires i < |f.lines| && Starts(f, i) && s.suite == Some(Segment(b, f, i, End(f, i)))
    requires DeclaredOnce(b, f, i, End(f, i)) && Close(s).Abort?
    ensures Culprit(b, f, Close(s).error)
  {
    CloseAbortsWith(s);
    UnpairedIs(b, f, i, s.suite.value);
  }

  lemma CloseAbortsWith(s: State)
    requires Close(s).Abort?
    ensures s.suite.Some? && s.suite.value.tests != [] && Verify(s.suite.value) == Some(Close(s).error)
  { }

  lemma UnpairedIs(b: bool, f: File, i: nat, suite: Suite)
    requires Starts(f, i) && suite == Segment(b, f, i, End(f, i)) && DeclaredOnce(b, f, i, End(f, i))
    requires suite.tests != [] && Verify(suite).Some?
    ensures Culprit(b, f, Verify(suite).value)
  {
    var e := Verify(suite).value;
    assert Unpaired(b, f, i, e.CreateWithoutDestroy?, e.line);
  }

  lemma LineAborts(s: State, f: File, n: nat)
    requires s.suite == None && n < |f.lines| && AcceptableSoFar(s.inBlock, f, n)
    requires ScanLine(StateAfter(s, f, n), f.name, n + 1, f.lines[n]).Abort?
    ensures Culprit(s.inBlock, f, ScanLine(StateAfter(s, f, n), f.name, n + 1, f.lines[n]).error)
  {
    if Starts(f, n) { StartAborts(s, f, n); } else { InsideAborts(s, f, n); }
  }

  lemma StartAborts(s: State, f: File, n: nat)
    requires s.suite == None && n < |f.lines| && Starts(f, n) && AcceptableSoFar(s.inBlock, f, n)
    requires ScanLine(StateAfter(s, f, n), f.name, n + 1, f.lines[n]).Abort?
    ensures Culprit(s.inBlock, f, ScanLine(StateAfter(s, f, n), f.name, n + 1, f.lines[n]).error)
  {
    var b, s0 := s.inBlock, StateAfter(s, f, n);
    StartLine(f, n, s0);
    if Close(s0).Abort? {
      CloseAborts(s, f, n);
    } else {
      CloseBeforeStart(s, f, n);
      EmptySegment(b, s0.inBlock, f, n);
      OwnedAborts(b, f, n, n, State(Some(Segment(b, f, n, n)), s.suites + SuitesBefore(b, f, n), BlockBefore(b, f, n)));
    }
  }

  lemma InsideAborts(s: State, f: File, n: nat)
    requires s.suite == None && n < |f.lines| && !Starts(f, n) && AcceptableSoFar(s.inBlock, f, n)
    requires ScanLine(StateAfter(s, f, n), f.name, n + 1, f.lines[n]).Abort?
    ensures Culprit(s.inBlock, f, ScanLine(StateAfter(s, f, n), f.name, n + 1, f.lines[n]).error)
  {
    NotStarting(s, f, n);
    OwnedAborts(s.inBlock, f, Owner(f, n).value, n, StateAfter(s, f, n));
  }

  lemma NotStarting(s: State, f: File, n: nat)
    requires s.suite == None && n < |f.lines| && !Starts(f, n)
    ensures var s0 := StateAfter(s, f, n);
            && ScanLine(s0, f.name, n + 1, f.lines[n]) == ScanOwned(s0, n + 1, f.lines[n])
            && Owner(f, n + 1) == Owner(f, n) && s0.inBlock == BlockBefore(s.inBlock, f, n)
            && (Owner(f, n).Some? ==> s0.suite == Some(Segment(s.inBlock, f, Owner(f, n).value, n)))
            && (Owner(f, n).None? ==> s0.suite == None)
  { }

  lemma {:induction false} FirstTrue(a: seq<bool>) returns (k: nat)
    requires a != [] && !a[0] && a[|a| - 1]
    ensures k + 1 < |a| && !a[k] && a[k + 1]
    decreases |a|
  {
    k := |a| - 2;
    if a[k] { k := FirstTrue(a[..|a| - 1]); }
  }

  /** The line before the one that makes scanning abort. */
  lemma LastGoodLine(s: State, f: File) returns (k: nat)
    requires ScanLines(s, f, |f.lines|).Abort?
    ensures k < |f.lines| && ScanLines(s, f, k).Ok? && ScanLines(s, f, k + 1).Abort?
  {
    var aborts := seq(|f.lines| + 1, n requires 0 <= n <= |f.lines| => ScanLines(s, f, n).Abort?);
    assert ScanLines(s, f, 0).Ok?;
    k := FirstTrue(aborts);
  }

  lemma FirstAbort(s: State, f: File, n: nat)
    requires s.suite == None && n < |f.lines| && ScanLines(s, f, n).Ok? && ScanLines(s, f, n + 1).Abort?
    ensures Culprit(s.inBlock, f, ScanLines(s, f, n + 1).error)
  {
    ScanLinesIs(s, f, n);
    NextLineAborts(s, f, n);
  }

  lemma NextLineAborts(s: State, f: File, n: nat)
    requires s.suite == None && n < |f.lines| && AcceptableSoFar(s.inBlock, f, n)
    requires ScanLines(s, f, n) == Ok(StateAfter(s, f, n)) && ScanLines(s, f, n + 1).Abort?
    ensures Culprit(s.inBlock, f, ScanLines(s, f, n + 1).error)
  {
    var r := ScanLine(StateAfter(s, f, n), f.name, n + 1, f.lines[n]);
    assert ScanLines(s, f, n + 1) == r;
    LineAborts(s, f, n);
  }

  /** Whatever makes the scanner give up in a file is really wrong there: the error names its kind and line. */
  lemma AbortNamesTheCulprit(s: State, f: File)
    requires s.suite == None && ScanFile(s, f).Abort?
    ensures Culprit(s.inBlock, f, ScanFile(s, f).error)
  {
    var n := |f.lines|;
    if ScanLines(s, f, n).Abort? {
      var k := LastGoodLine(s, f);
      FirstAbort(s, f, k);
      AbortsForGood(s, f, k + 1);
    } else {
      ScanLinesIs(s, f, n);
      CloseAborts(s, f, n);
    }
  }

  // ---------------------------------------------------------------- all files

  /** Whether a block is open after these files. */
  function BlockAfter(files: seq<File>): bool
    decreases |files|
  {
    if files == [] then false
    else BlockBefore(BlockAfter(files[..|files| - 1]), files[|files| - 1], |files[|files| - 1].lines|)
  }

  function SuitesOfAll(files: seq<File>): seq<Suite>
    decreases |files|
  {
    if files == [] then []
    else
      var front := files[..|files| - 1];
      SuitesOfAll(front) + SuitesOf(BlockAfter(front), files[|files| - 1])
  }

  predicate AcceptableAt(files: seq<File>, k: nat)
    requires k < |files|
  {
    Acceptable(BlockAfter(files[..k]), files[k])
  }

  predicate AllAcceptable(files: seq<File>) {
    forall k :: 0 <= k < |files| ==> AcceptableAt(files, k)
  }

  lemma FrontAcceptable(files: seq<File>, n: nat)
    requires |files| == n + 1
    ensures AllAcceptable(files) <==> AllAcceptable(files[..n]) && AcceptableAt(files, n)
  {
    forall k | 0 <= k < n ensures AcceptableAt(files[..n], k) <==> AcceptableAt(files, k) {
      assert files[..n][..k] == files[..k];
    }
    if AllAcceptable(files[..n]) && AcceptableAt(files, n) {
      forall k | 0 <= k < |files| ensures AcceptableAt(files, k) {
        if k < n { assert AcceptableAt(files[..n], k); }
      }
    }
  }

  lemma {:induction false} ScanFilesIff(files: seq<File>)
    ensures ScanFiles(INITIAL, files).Ok? <==> AllAcceptable(files)
    ensures ScanFiles(INITIAL, files).Ok? ==>
              ScanFiles(INITIAL, files).value == State(None, SuitesOfAll(files), BlockAfter(files))
    decreases |files|
  {
    if files != [] {
      var n := |files| - 1;
      ScanFilesIff(files[..n]);
      FrontAcceptable(files, n);
      if ScanFiles(INITIAL, files[..n]).Ok? { ScanFileIff(ScanFiles(INITIAL, files[..n]).value, files[n]); }
    }
  }

  /** The same for any files: one that is not acceptable aborts, and so does finding no tests at all. */
  lemma ScanIff(files: seq<File>, root: bool)
    ensures Scan(files, root).Ok? <==> AllAcceptable(files) && (root || SuitesOfAll(files) != [])
    ensures Scan(files, root).Ok? ==> Scan(files, root).value == SuitesOfAll(files)
  {
    ScanFilesIff(files);
  }

  /** The k-th file is the first one that is not acceptable, and the error names what is wrong in it. */
  ghost predicate FirstCulprit(files: seq<File>, k: nat, e: Error)
    requires k < |files|
  {
    AllAcceptable(files[..k]) && Culprit(BlockAfter(files[..k]), files[k], e)
  }

  lemma {:induction false} FilesAbort(files: seq<File>)
    requires ScanFiles(INITIAL, files).Abort?
    ensures exists k :: 0 <= k < |files| && FirstCulprit(files, k, ScanFiles(INITIAL, files).error)
    decreases |files|
  {
    var n := |files| - 1;
    var e := ScanFiles(INITIAL, files).error;
    ScanFilesIff(files[..n]);
    if ScanFiles(INITIAL, files[..n]).Abort? {
      FilesAbort(files[..n]);
      var k :| 0 <= k < n && FirstCulprit(files[..n], k, e);
      assert files[..n][..k] == files[..k];
      assert FirstCulprit(files, k, e);
    } else {
      AbortNamesTheCulprit(ScanFiles(INITIAL, files[..n]).value, files[n]);
      assert FirstCulprit(files, n, e);
    }
  }

  /** The error of a scan that is given up: what is wrong in the first file that is not acceptable, or that
      there are no tests at all. */
  lemma ScanAborts(files: seq<File>, root: bool)
    requires Scan(files, root).Abort?
    ensures var e := Scan(files, root).error;
            || (exists k :: 0 <= k < |files| && FirstCulprit(files, k, e))
            || (e == NoTestsDefined && !root && AllAcceptable(files) && SuitesOfAll(files) == [])
  {
    ScanFilesIff(files);
    if ScanFiles(INITIAL, files).Abort? { FilesAbort(files); }
  }

  // ---------------------------------------------------------------- which tests are found

  /** A test as it is written: in which suite it is. */
  datatype Description = Description(file: string, suiteLine: nat, test: Test)

  function DescriptionsOf(s: Suite, tests: seq<Test>): (r: seq<Description>)
    ensures |r| == |tests| && forall i :: 0 <= i < |tests| ==> r[i] == Description(s.file, s.line, tests[i])
  {
    seq(|tests|, i requires 0 <= i < |tests| => Description(s.file, s.line, tests[i]))
  }

  function AllDescriptions(suites: seq<Suite>): seq<Description>
    decreases |suites|
  {
    if suites == [] then []
    else
      var s := suites[|suites| - 1];
      AllDescriptions(suites[..|suites| - 1]) + DescriptionsOf(s, s.tests)
  }

  /** The test on line `k`, with the latest start. */
  function TestAt(f: File, k: nat): Description
    requires k < |f.lines| && f.lines[k].test.Some? && Owner(f, k + 1).Some?
  {
    Description(f.name, Owner(f, k + 1).value + 1, Test(f.lines[k].test.value, k + 1))
  }

  /** The scanned test lines of the first n lines. */
  function FoundTests(b: bool, f: File, n: nat): seq<Description>
    requires n <= |f.lines|
  {
    if n == 0 then []
    else if f.lines[n - 1].test.Some? && Scanned(b, f, n - 1) then FoundTests(b, f, n - 1) + [TestAt(f, n - 1)]
    else FoundTests(b, f, n - 1)
  }

  function FoundInAll(files: seq<File>): seq<Description>
    decreases |files|
  {
    if files == [] then []
    else
      var front, last := files[..|files| - 1], files[|files| - 1];
      FoundInAll(front) + FoundTests(BlockAfter(front), last, |last.lines|)
  }

  lemma AppendSuite(suites: seq<Suite>, s: Suite)
    ensures AllDescriptions(suites + [s]) == AllDescriptions(suites) + DescriptionsOf(s, s.tests)
  {
    assert (suites + [s])[..|suites|] == suites;
  }

  /** An empty suite that is dropped has no tests to lose. */
  lemma AppendKept(suites: seq<Suite>, s: Suite)
    ensures AllDescriptions(suites + Kept(s)) == AllDescriptions(suites) + DescriptionsOf(s, s.tests)
  {
    if s.tests == [] {
      assert suites + Kept(s) == suites && DescriptionsOf(s, s.tests) == [];
    } else {
      AppendSuite(suites, s);
    }
  }

  lemma DescriptionsOfSegment(b: bool, f: File, i: nat, n: nat)
    requires i < n <= |f.lines| && Starts(f, i) && End(f, i) == n
    ensures AllDescriptions(SuitesBefore(b, f, n)) ==
            AllDescriptions(SuitesBefore(b, f, i)) + DescriptionsOf(Segment(b, f, i, n), TestsIn(b, f, i, n))
  {
    NoSuitesBetween(b, f, i, n);
    AppendKept(SuitesBefore(b, f, i), Segment(b, f, i, n));
  }

  function OpenDescriptions(b: bool, f: File, n: nat): seq<Description>
    requires n <= |f.lines|
  {
    match Owner(f, n)
    case Some(i) => DescriptionsOf(Segment(b, f, i, n), TestsIn(b, f, i, n))
    case None => []
  }

  /** The closed suites and the open one hold the tests found so far. */
  predicate HoldsTheFoundTests(b: bool, f: File, n: nat)
    requires n <= |f.lines|
  {
    AllDescriptions(ClosedBefore(b, f, n)) + OpenDescriptions(b, f, n) == FoundTests(b, f, n)
  }

  lemma {:induction false} FoundTestsAre(b: bool, f: File, n: nat)
    requires n <= |f.lines|
    ensures HoldsTheFoundTests(b, f, n)
    decreases n
  {
    if n == 0 {
      NothingFound(b, f);
    } else {
      FoundTestsAre(b, f, n - 1);
      AfterLine(b, f, n - 1);
    }
  }

  lemma NothingFound(b: bool, f: File)
    ensures HoldsTheFoundTests(b, f, 0)
  { }

  lemma AfterLine(b: bool, f: File, n: nat)
    requires n < |f.lines| && HoldsTheFoundTests(b, f, n)
    ensures HoldsTheFoundTests(b, f, n + 1)
  {
    if Starts(f, n) { AfterStart(b, f, n); } else { AfterOther(b, f, n); }
  }

  /** What line `k` adds. */
  function NewDescriptions(b: bool, f: File, k: nat): seq<Description>
    requires k < |f.lines|
  {
    if f.lines[k].test.Some? && Scanned(b, f, k) then [TestAt(f, k)] else []
  }

  lemma AfterInside(b: bool, f: File, k: nat, i: nat)
    requires i <= k < |f.lines| && Owner(f, k + 1) == Some(i)
    ensures DescriptionsOf(Segment(b, f, i, k + 1), TestsIn(b, f, i, k + 1)) ==
            DescriptionsOf(Segment(b, f, i, k), TestsIn(b, f, i, k)) + NewDescriptions(b, f, k)
  { }

  lemma AfterOther(b: bool, f: File, n: nat)
    requires n < |f.lines| && !Starts(f, n)
    requires HoldsTheFoundTests(b, f, n)
    ensures HoldsTheFoundTests(b, f, n + 1)
  {
    FoundAfter(b, f, n);
    if Owner(f, n).Some? {
      AfterInside(b, f, n, Owner(f, n).value);
      Reassociate(AllDescriptions(ClosedBefore(b, f, n)), OpenDescriptions(b, f, n), NewDescriptions(b, f, n));
    }
  }

  lemma FoundAfter(b: bool, f: File, n: nat)
    requires n < |f.lines|
    ensures FoundTests(b, f, n + 1) == FoundTests(b, f, n) + NewDescriptions(b, f, n)
  { }

  /** When a suite starts, the closed suites hold all the tests found so far. */
  lemma BeforeStart(b: bool, f: File, n: nat)
    requires n <= |f.lines| && (n < |f.lines| ==> Starts(f, n))
    requires HoldsTheFoundTests(b, f, n)
    ensures AllDescriptions(SuitesBefore(b, f, n)) == FoundTests(b, f, n)
  {
    match Owner(f, n)
    case Some(i) =>
      NextStartIs(f, i + 1, n);
      DescriptionsOfSegment(b, f, i, n);
    case None =>
      NoSuitesYet(b, f, n);
  }

  lemma AfterStart(b: bool, f: File, n: nat)
    requires n < |f.lines| && Starts(f, n)
    requires HoldsTheFoundTests(b, f, n)
    ensures HoldsTheFoundTests(b, f, n + 1)
  {
    BeforeStart(b, f, n);
    AfterInside(b, f, n, n);
    assert DescriptionsOf(Segment(b, f, n, n), TestsIn(b, f, n, n)) == [];
    assert OpenDescriptions(b, f, n + 1) == NewDescriptions(b, f, n);
  }

  /** The tests of the remembered suites are exactly the scanned test lines, in order, each in the suite of
      the latest start: none of them is lost, added, duplicated or moved. */
  lemma SuitesHoldTheFoundTests(b: bool, f: File)
    ensures AllDescriptions(SuitesOf(b, f)) == FoundTests(b, f, |f.lines|)
  {
    FoundTestsAre(b, f, |f.lines|);
    BeforeStart(b, f, |f.lines|);
  }

  lemma {:induction false} AppendSuites(a: seq<Suite>, b: seq<Suite>)
    ensures AllDescriptions(a + b) == AllDescriptions(a) + AllDescriptions(b)
    decreases |b|
  {
    if b == [] {
      assert a + b == a;
    } else {
      var front, last := b[..|b| - 1], b[|b| - 1];
      assert a + b == (a + front) + [last] && b == front + [last];
      AppendSuites(a, front);
      AppendSuite(a + front, last);
      AppendSuite(front, last);
      Reassociate(AllDescriptions(a), AllDescriptions(front), DescriptionsOf(last, last.tests));
    }
  }

  lemma {:induction false} AllSuitesHoldTheFoundTests(files: seq<File>)
    ensures AllDescriptions(SuitesOfAll(files)) == FoundInAll(files)
    decreases |files|
  {
    if files != [] {
      var front, last := files[..|files| - 1], files[|files| - 1];
      AllSuitesHoldTheFoundTests(front);
      SuitesHoldTheFoundTests(BlockAfter(front), last);
      AppendSuites(SuitesOfAll(front), SuitesOf(BlockAfter(front), last));
    }
  }

  /** Each scanned test line is described exactly once, with the latest start, and nothing else is. */
  lemma {:induction false} EachTestOnce(b: bool, f: File, n: nat, d: Description)
    requires n <= |f.lines|
    ensures multiset(FoundTests(b, f, n))[d] ==
            if && 0 < d.test.line <= n && f.lines[d.test.line - 1].test == Some(d.test.name)
               && Scanned(b, f, d.test.line - 1) && d == TestAt(f, d.test.line - 1)
            then 1 else 0
    decreases n
  {
    if n > 0 { EachTestOnce(b, f, n - 1, d); }
  }

  // ---------------------------------------------------------------- when no test is lost

  /** All test lines of the first n lines that stand at or after a start of either kind. */
  function TestLines(f: File, n: nat): seq<Description>
    requires n <= |f.lines|
  {
    if n == 0 then []
    else if f.lines[n - 1].test.Some? && Owner(f, n).Some? then TestLines(f, n - 1) + [TestAt(f, n - 1)]
    else TestLines(f, n - 1)
  }

  function TestLinesOfAll(files: seq<File>): seq<Description>
    decreases |files|
  {
    if files == [] then []
    else TestLinesOfAll(files[..|files| - 1]) + TestLines(files[|files| - 1], |files[|files| - 1].lines|)
  }

  /** A test line of an inline suite that is outside a block, or ends one. */
  predicate IsLost(b: bool, f: File, k: nat)
    requires k < |f.lines|
  {
    f.lines[k].test.Some? && OwnedInline(f, k) && (!InBlock(b, f, k) || f.lines[k].endsBlock)
  }

  lemma {:induction false} FoundIsAllIff(b: bool, f: File, n: nat)
    requires n <= |f.lines|
    ensures |FoundTests(b, f, n)| <= |TestLines(f, n)|
    ensures |FoundTests(b, f, n)| == |TestLines(f, n)| <==> forall k :: 0 <= k < n ==> !IsLost(b, f, k)
    ensures |FoundTests(b, f, n)| == |TestLines(f, n)| ==> FoundTests(b, f, n) == TestLines(f, n)
    decreases n
  {
    if n > 0 {
      FoundIsAllIff(b, f, n - 1);
      assert IsLost(b, f, n - 1) <==> f.lines[n - 1].test.Some? && Owner(f, n).Some? && !Scanned(b, f, n - 1);
    }
  }

  /** The i-th file loses no test. */
  predicate LosesNone(files: seq<File>, i: nat)
    requires i < |files|
  {
    forall k :: 0 <= k < |files[i].lines| ==> !IsLost(BlockAfter(files[..i]), files[i], k)
  }

  predicate NoneIsLost(files: seq<File>) {
    forall i :: 0 <= i < |files| ==> LosesNone(files, i)
  }

  lemma FrontLosesNone(files: seq<File>, n: nat)
    requires |files| == n + 1
    ensures NoneIsLost(files) <==> NoneIsLost(files[..n]) && LosesNone(files, n)
  {
    forall i | 0 <= i < n ensures LosesNone(files[..n], i) <==> LosesNone(files, i) {
      assert files[..n][..i] == files[..i];
    }
    if NoneIsLost(files[..n]) && LosesNone(files, n) {
      forall i | 0 <= i < |files| ensures LosesNone(files, i) {
        if i < n { assert LosesNone(files[..n], i); }
      }
    }
  }

  lemma {:induction false} FoundInAllIff(files: seq<File>)
    ensures |FoundInAll(files)| <= |TestLinesOfAll(files)|
    ensures |FoundInAll(files)| == |TestLinesOfAll(files)| <==> NoneIsLost(files)
    ensures |FoundInAll(files)| == |TestLinesOfAll(files)| ==> FoundInAll(files) == TestLinesOfAll(files)
    decreases |files|
  {
    if files != [] {
      var n := |files| - 1;
      FoundInAllIff(files[..n]);
      FoundIsAllIff(BlockAfter(files[..n]), files[n], |files[n].lines|);
      FrontLosesNone(files, n);
    }
  }

  // ---------------------------------------------------------------- create and destroy

  /** Remembered suites have tests, and createSuite() exactly if they have destroySuite(). */
  predicate AllPaired(suites: seq<Suite>) {
    forall s :: s in suites ==> s.tests != [] && (s.create.Some? <==> s.destroy.Some?)
  }

  lemma CloseKeepsPaired(s: State)
    requires AllPaired(s.suites)
    ensures Close(s).Ok? ==> AllPaired(Close(s).value.suites)
  { }

  lemma StartKeepsPaired(s: State, name: string, file: string, line: nat, generated: bool)
    requires AllPaired(s.suites)
    ensures var r := Start(s, name, file, line, generated); r.Ok? ==> AllPaired(r.value.suites)
  { }

  lemma LineKeepsPaired(s: State, file: string, lineNo: nat, line: Line)
    requires AllPaired(s.suites)
    ensures var r := ScanLine(s, file, lineNo, line); r.Ok? ==> AllPaired(r.value.suites)
  {
    var s1 := if line.start.Some? then Start(s, line.start.value, file, lineNo, false) else Ok(s);
    if line.start.Some? { StartKeepsPaired(s, line.start.value, file, lineNo, false); }
    if s1.Ok? && line.inlineStart.Some? { StartKeepsPaired(s1.value, line.inlineStart.value, file, lineNo, true); }
  }

  lemma {:induction false} LinesKeepPaired(s: State, f: File, n: nat)
    requires n <= |f.lines| && AllPaired(s.suites)
    ensures var r := ScanLines(s, f, n); r.Ok? ==> AllPaired(r.value.suites)
    decreases n
  {
    if n > 0 {
      LinesKeepPaired(s, f, n - 1);
      if ScanLines(s, f, n - 1).Ok? { LineKeepsPaired(ScanLines(s, f, n - 1).value, f.name, n, f.lines[n - 1]); }
    }
  }

  lemma {:induction false} FilesKeepPaired(files: seq<File>)
    ensures var r := ScanFiles(INITIAL, files); r.Ok? ==> AllPaired(r.value.suites)
    decreases |files|
  {
    if files != [] {
      var front, last := files[..|files| - 1], files[|files| - 1];
      FilesKeepPaired(front);
      var r := ScanFiles(INITIAL, front);
      if r.Ok? {
        LinesKeepPaired(r.value, last, |last.lines|);
        var q := ScanLines(r.value, last, |last.lines|);
        if q.Ok? { CloseKeepsPaired(q.value); }
      }
    }
  }

  /** For any files, with inline suites or not. */
  lemma RememberedArePaired(files: seq<File>, root: bool)
    ensures Scan(files, root).Ok? ==> AllPaired(Scan(files, root).value)
  {
    FilesKeepPaired(files);
  }

  // ---------------------------------------------------------------- writing

  datatype Item =
    | Include(file: string)
    | InlineClass(name: string, blockLines: seq<nat>)
    | SuitePointer(name: string)
    | SuiteObject(name: string)
    | TestList(name: string)
    | DynamicDescription(file: string, line: nat, name: string, create: nat, destroy: nat)
    | StaticDescription(file: string, line: nat, name: string)
    | TestDescription(description: Description, dynamic: bool)

  predicate IsDynamic(s: Suite) {
    s.create.Some?
  }

  function TestItems(s: Suite): (items: seq<Item>)
    ensures |items| == |s.tests|
    ensures forall i :: 0 <= i < |s.tests| ==>
              items[i] == TestDescription(Description(s.file, s.line, s.tests[i]), IsDynamic(s))
  {
    seq(|s.tests|, i requires 0 <= i < |s.tests| =>
      TestDescription(Description(s.file, s.line, s.tests[i]), IsDynamic(s)))
  }

  predicate Writable(s: Suite) {
    s.create.Some? ==> s.destroy.Some?
  }

  function ItemsOf(s: Suite, lastIncluded: string): seq<Item>
    requires Writable(s)
  {
    Heading(s, lastIncluded) + Definitions(s) + TestItems(s)
  }

  function Heading(s: Suite, lastIncluded: string): seq<Item> {
    (if s.file == lastIncluded then [] else [Include(s.file)])
    + (if s.generated then [InlineClass(s.name, s.blockLines)] else [])
  }

  function Definitions(s: Suite): seq<Item>
    requires Writable(s)
  {
    if IsDynamic(s) then
      [SuitePointer(s.name), TestList(s.name),
       DynamicDescription(s.file, s.line, s.name, s.create.value, s.destroy.value)]
    else
      [SuiteObject(s.name), TestList(s.name), StaticDescription(s.file, s.line, s.name)]
  }

  function LastFile(suites: seq<Suite>): string {
    if suites == [] then "" else suites[|suites| - 1].file
  }

  function Written(suites: seq<Suite>): seq<Item>
    requires forall s :: s in suites ==> Writable(s)
    decreases |suites|
  {
    if suites == [] then []
    else
      var front := suites[..|suites| - 1];
      Written(front) + ItemsOf(suites[|suites| - 1], LastFile(front))
  }

  class Writer {
    var lastIncluded: string
    var output: seq<Item>

    constructor ()
      ensures lastIncluded == "" && output == []
    {
      lastIncluded, output := "", [];
    }

    method WriteInclude(file: string)
      modifies this
      ensures lastIncluded == file
      ensures output == old(output) + if file == old(lastIncluded) then [] else [Include(file)]
    {
      if file == lastIncluded { return; }
      output := output + [Include(file)];
      lastIncluded := file;
    }

    method WriteTestDescriptions(s: Suite)
      modifies this`output
      ensures output == old(output) + TestItems(s)
    {
      var i := 0;
      while i < |s.tests|
        invariant 0 <= i <= |s.tests| && output == old(output) + TestItems(s)[..i]
      {
        output := output + [TestDescription(Description(s.file, s.line, s.tests[i]), IsDynamic(s))];
        i := i + 1;
      }
    }

    method WriteSuite(s: Suite)
      requires Writable(s)
      modifies this
      ensures lastIncluded == s.file && output == old(output) + ItemsOf(s, old(lastIncluded))
    {
      WriteInclude(s.file);
      if s.generated { output := output + [InlineClass(s.name, s.blockLines)]; }
      assert output == old(output) + Heading(s, old(lastIncluded));
      WriteDefinitions(s);
      WriteTestDescriptions(s);
    }

    method WriteDefinitions(s: Suite)
      requires Writable(s)
      modifies this`output
      ensures output == old(output) + Definitions(s)
    {
      output := output + [if IsDynamic(s) then SuitePointer(s.name) else SuiteObject(s.name)];
      output := output + [TestList(s.name)];
      if IsDynamic(s) {
        output := output + [DynamicDescription(s.file, s.line, s.name, s.create.value, s.destroy.value)];
      } else {
        output := output + [StaticDescription(s.file, s.line, s.name)];
      }
    }

    method WriteSuites(suites: seq<Suite>)
      requires lastIncluded == "" && output == [] && forall s :: s in suites ==> Writable(s)
      modifies this
      ensures output == Written(suites)
    {
      var i := 0;
      while i < |suites|
        invariant 0 <= i <= |suites| && lastIncluded == LastFile(suites[..i])
        invariant (forall s :: s in suites[..i] ==> Writable(s)) && output == Written(suites[..i])
      {
        assert suites[i] in suites && suites[..i + 1][..i] == suites[..i];
        WriteSuite(suites[i]);
        i := i + 1;
      }
      assert suites[..|suites|] == suites;
    }
  }

  /** The descriptions among the items. */
  function TestsWritten(items: seq<Item>): seq<Description>
    decreases |items|
  {
    if items == [] then []
    else
      var front, last := TestsWritten(items[..|items| - 1]), items[|items| - 1];
      if last.TestDescription? then front + [last.description] else front
  }

  lemma {:induction false} TestsWrittenConcat(a: seq<Item>, b: seq<Item>)
    ensures TestsWritten(a + b) == TestsWritten(a) + TestsWritten(b)
    decreases |b|
  {
    if b == [] {
      assert a + b == a;
    } else {
      assert (a + b)[..|a + b| - 1] == a + b[..|b| - 1];
      TestsWrittenConcat(a, b[..|b| - 1]);
    }
  }

  lemma {:induction false} NoTestsAmong(items: seq<Item>)
    requires forall x :: x in items ==> !x.TestDescription?
    ensures TestsWritten(items) == []
    decreases |items|
  {
    if items != [] { NoTestsAmong(items[..|items| - 1]); }
  }

  lemma {:induction false} OnlyTestsAmong(s: Suite, n: nat)
    requires n <= |s.tests|
    ensures TestsWritten(TestItems(s)[..n]) == DescriptionsOf(s, s.tests)[..n]
    decreases n
  {
    if n > 0 {
      OnlyTestsAmong(s, n - 1);
      assert TestItems(s)[..n][..n - 1] == TestItems(s)[..n - 1];
    }
  }

  lemma TestsOfSuite(s: Suite, lastIncluded: string)
    requires Writable(s)
    ensures TestsWritten(ItemsOf(s, lastIncluded)) == DescriptionsOf(s, s.tests)
  {
    var head := Heading(s, lastIncluded) + Definitions(s);
    NoTestsAmong(head);
    OnlyTestsAmong(s, |s.tests|);
    assert TestItems(s)[..|s.tests|] == TestItems(s);
    assert DescriptionsOf(s, s.tests)[..|s.tests|] == DescriptionsOf(s, s.tests);
    TestsWrittenConcat(head, TestItems(s));
  }

  lemma {:induction false} TestsOfSuites(suites: seq<Suite>)
    requires forall s :: s in suites ==> Writable(s)
    ensures TestsWritten(Written(suites)) == AllDescriptions(suites)
    decreases |suites|
  {
    if suites != [] {
      var front, last := suites[..|suites| - 1], suites[|suites| - 1];
      TestsOfSuites(front);
      TestsWrittenConcat(Written(front), ItemsOf(last, LastFile(front)));
      TestsOfSuite(last, LastFile(front));
    }
  }

  /** A suite as it is described: where it is, and its create and destroy lines if it is dynamic. */
  datatype SuiteDescription = SuiteDescription(file: string, line: nat, name: string, dynamic: Option<(nat, nat)>)

  function DescriptionOf(s: Suite): SuiteDescription
    requires s.create.Some? <==> s.destroy.Some?
  {
    SuiteDescription(s.file, s.line, s.name, if s.create.Some? then Some((s.create.value, s.destroy.value)) else None)
  }

  /** The suite an item describes, if it describes one. */
  function DescribedBy(included: string, x: Item): seq<(string, SuiteDescription)> {
    match x
    case DynamicDescription(file, line, name, create, destroy) =>
      [(included, SuiteDescription(file, line, name, Some((create, destroy))))]
    case StaticDescription(file, line, name) => [(included, SuiteDescription(file, line, name, None))]
    case _ => []
  }

  /** The suites described among the items, each with the file included last before it. */
  function SuitesWritten(items: seq<Item>): seq<(string, SuiteDescription)>
    decreases |items|
  {
    if items == [] then []
    else
      var front, last := items[..|items| - 1], items[|items| - 1];
      SuitesWritten(front) + DescribedBy(Included(front), last)
  }

  /** The file included last. */
  function Included(items: seq<Item>): string
    decreases |items|
  {
    if items == [] then ""
    else if items[|items| - 1].Include? then items[|items| - 1].file
    else Included(items[..|items| - 1])
  }

  lemma AppendItem(items: seq<Item>, x: Item)
    ensures Included(items + [x]) == if x.Include? then x.file else Included(items)
    ensures SuitesWritten(items + [x]) == SuitesWritten(items) + DescribedBy(Included(items), x)
  {
    assert (items + [x])[..|items|] == items;
  }

  lemma OneMoreTest<T>(items: seq<T>, tests: seq<T>, n: nat)
    requires 0 < n <= |tests|
    ensures items + tests[..n] == (items + tests[..n - 1]) + [tests[n - 1]]
  { }

  lemma {:induction false} AppendTests(items: seq<Item>, s: Suite, n: nat)
    requires n <= |s.tests|
    ensures Included(items + TestItems(s)[..n]) == Included(items)
    ensures SuitesWritten(items + TestItems(s)[..n]) == SuitesWritten(items)
    decreases n
  {
    if n == 0 {
      assert items + TestItems(s)[..0] == items;
    } else {
      AppendTests(items, s, n - 1);
      OneMoreTest(items, TestItems(s), n);
      AppendPlain(items + TestItems(s)[..n - 1], TestItems(s)[n - 1]);
    }
  }

  lemma AppendPlain(items: seq<Item>, x: Item)
    requires !x.Include? && !x.DynamicDescription? && !x.StaticDescription?
    ensures Included(items + [x]) == Included(items) && SuitesWritten(items + [x]) == SuitesWritten(items)
  {
    AppendItem(items, x);
  }

  lemma AppendHeading(items: seq<Item>, s: Suite)
    ensures Included(items + Heading(s, Included(items))) == s.file
    ensures SuitesWritten(items + Heading(s, Included(items))) == SuitesWritten(items)
  {
    var heading, inline := Include(s.file), InlineClass(s.name, s.blockLines);
    var i1 := if s.file == Included(items) then items else items + [heading];
    AppendItem(items, heading);
    assert Included(i1) == s.file && SuitesWritten(i1) == SuitesWritten(items);
    AppendPlain(i1, inline);
    HeadingIs(items, s);
  }

  lemma HeadingIs(items: seq<Item>, s: Suite)
    ensures var i1 := if s.file == Included(items) then items else items + [Include(s.file)];
            items + Heading(s, Included(items)) == if s.generated then i1 + [InlineClass(s.name, s.blockLines)] else i1
  { }

  lemma ThreeMore<T>(items: seq<T>, d: seq<T>)
    requires |d| == 3
    ensures items + d == items + [d[0]] + [d[1]] + [d[2]]
  { }

  lemma ThirdDefinition(included: string, s: Suite)
    requires s.create.Some? <==> s.destroy.Some?
    ensures !Definitions(s)[2].Include? && DescribedBy(included, Definitions(s)[2]) == [(included, DescriptionOf(s))]
  { }

  lemma AppendDefinitions(items: seq<Item>, s: Suite)
    requires s.create.Some? <==> s.destroy.Some?
    ensures Included(items + Definitions(s)) == Included(items)
    ensures SuitesWritten(items + Definitions(s)) == SuitesWritten(items) + [(Included(items), DescriptionOf(s))]
  {
    var d := Definitions(s);
    AppendPlain(items, d[0]);
    AppendPlain(items + [d[0]], d[1]);
    AppendItem(items + [d[0]] + [d[1]], d[2]);
    ThirdDefinition(Included(items), s);
    ThreeMore(items, d);
  }

  /** Writing one suite includes its file, unless that was included last, and describes the suite once. */
  lemma AppendItemsOf(items: seq<Item>, s: Suite)
    requires s.create.Some? <==> s.destroy.Some?
    ensures Included(items + ItemsOf(s, Included(items))) == s.file
    ensures SuitesWritten(items + ItemsOf(s, Included(items))) == SuitesWritten(items) + [(s.file, DescriptionOf(s))]
  {
    var heading, definitions, tests := Heading(s, Included(items)), Definitions(s), TestItems(s);
    AppendHeading(items, s);
    AppendDefinitions(items + heading, s);
    AppendTests(items + heading + definitions, s, |s.tests|);
    assert tests[..|s.tests|] == tests;
    Reassociate(items, heading, definitions);
    Reassociate(items, heading + definitions, tests);
  }

  function DescriptionsInFiles(suites: seq<Suite>): (r: seq<(string, SuiteDescription)>)
    requires AllPaired(suites)
    ensures |r| == |suites|
    ensures forall i :: 0 <= i < |suites| ==>
              suites[i] in suites && r[i] == (suites[i].file, DescriptionOf(suites[i]))
  {
    seq(|suites|, i requires 0 <= i < |suites| =>
      assert suites[i] in suites; (suites[i].file, DescriptionOf(suites[i])))
  }

  lemma NextInFiles(suites: seq<Suite>)
    requires AllPaired(suites) && suites != []
    ensures var front, last := suites[..|suites| - 1], suites[|suites| - 1];
            AllPaired(front) && last in suites
            && DescriptionsInFiles(suites) == DescriptionsInFiles(front) + [(last.file, DescriptionOf(last))]
  { }

  /** The output describes every suite exactly once, in order, after its file has been included and no other
      one since, dynamically with its create and destroy lines exactly if it declares them. */
  lemma {:induction false} EverySuiteIsWritten(suites: seq<Suite>)
    requires AllPaired(suites)
    ensures forall s :: s in suites ==> Writable(s)
    ensures SuitesWritten(Written(suites)) == DescriptionsInFiles(suites)
    ensures Included(Written(suites)) == LastFile(suites)
    decreases |suites|
  {
    if suites != [] {
      var front, last := suites[..|suites| - 1], suites[|suites| - 1];
      assert suites == front + [last] && last in suites;
      EverySuiteIsWritten(front);
      AppendItemsOf(Written(front), last);
      NextInFiles(suites);
    }
  }

  // ---------------------------------------------------------------- what stands where in the output

  /** The suite stands at this position: its pointer or object, its test list, its description and those of its
      tests, behind its code if it is an inline suite, and with its own file as the one included last. */
  ghost predicate StandsAt(items: seq<Item>, at: nat, s: Suite)
    requires s.create.Some? <==> s.destroy.Some?
  {
    && at + 3 + |s.tests| <= |items|
    && items[at] == (if s.create.Some? then SuitePointer(s.name) else SuiteObject(s.name))
    && items[at + 1] == TestList(s.name)
    && items[at + 2] == (if s.create.Some?
                         then DynamicDescription(s.file, s.line, s.name, s.create.value, s.destroy.value)
                         else StaticDescription(s.file, s.line, s.name))
    && (forall j :: 0 <= j < |s.tests| ==>
          items[at + 3 + j] == TestDescription(Description(s.file, s.line, s.tests[j]), s.create.Some?))
    && Included(items[..at]) == s.file
    && (if s.generated then at > 0 && items[at - 1] == InlineClass(s.name, s.blockLines)
        else at > 0 ==> !items[at - 1].InlineClass?)
  }

  /** The suites stand at these positions, one behind the other. */
  ghost predicate Layout(items: seq<Item>, suites: seq<Suite>, at: seq<nat>)
    requires AllPaired(suites)
  {
    && |at| == |suites|
    && (forall i :: 0 <= i < |suites| ==> suites[i] in suites && StandsAt(items, at[i], suites[i]))
    && (forall i, j :: 0 <= i < j < |suites| ==> at[i] + 3 + |suites[i].tests| <= at[j])
  }

  lemma StandsLonger(items: seq<Item>, more: seq<Item>, at: nat, s: Suite)
    requires (s.create.Some? <==> s.destroy.Some?) && StandsAt(items, at, s)
    ensures StandsAt(items + more, at, s)
  {
    assert (items + more)[..at] == items[..at];
  }

  lemma DefinitionsAre(s: Suite)
    requires s.create.Some? <==> s.destroy.Some?
    ensures |Definitions(s)| == 3
    ensures Definitions(s)[0] == (if s.create.Some? then SuitePointer(s.name) else SuiteObject(s.name))
    ensures Definitions(s)[1] == TestList(s.name)
    ensures Definitions(s)[2] == if s.create.Some?
                                 then DynamicDescription(s.file, s.line, s.name, s.create.value, s.destroy.value)
                                 else StaticDescription(s.file, s.line, s.name)
  { }

  /** The last item before the definitions is the code of an inline suite exactly if the suite is one. */
  lemma BeforeDefinitions(items: seq<Item>, s: Suite)
    requires items != [] ==> !items[|items| - 1].InlineClass?
    ensures var before := items + Heading(s, Included(items));
            if s.generated then before != [] && before[|before| - 1] == InlineClass(s.name, s.blockLines)
            else before != [] ==> !before[|before| - 1].InlineClass?
  { }

  lemma AppendedStands(items: seq<Item>, s: Suite)
    requires s.create.Some? <==> s.destroy.Some?
    requires items != [] ==> !items[|items| - 1].InlineClass?
    ensures var before := items + Heading(s, Included(items));
            StandsAt(items + ItemsOf(s, Included(items)), |before|, s)
  {
    var before := items + Heading(s, Included(items));
    var all := items + ItemsOf(s, Included(items));
    Reassociate(items, Heading(s, Included(items)), Definitions(s));
    Reassociate(items, Heading(s, Included(items)) + Definitions(s), TestItems(s));
    AppendHeading(items, s);
    DefinitionsAre(s);
    BeforeDefinitions(items, s);
    StandsBehind(before, s);
    assert all == before + Definitions(s) + TestItems(s);
  }

  lemma StandsBehind(before: seq<Item>, s: Suite)
    requires s.create.Some? <==> s.destroy.Some?
    requires Included(before) == s.file
    requires if s.generated then before != [] && before[|before| - 1] == InlineClass(s.name, s.blockLines)
             else before != [] ==> !before[|before| - 1].InlineClass?
    ensures StandsAt(before + Definitions(s) + TestItems(s), |before|, s)
  {
    DefinitionsAre(s);
    ThreeThenRest(before, Definitions(s), TestItems(s));
  }

  lemma ThreeThenRest(before: seq<Item>, d: seq<Item>, t: seq<Item>)
    requires |d| == 3
    ensures var (all, n) := (before + d + t, |before|);
            && all[..n] == before && all[n] == d[0] && all[n + 1] == d[1] && all[n + 2] == d[2]
            && (forall j :: 0 <= j < |t| ==> all[n + 3 + j] == t[j])
            && (n > 0 ==> all[n - 1] == before[n - 1])
  { }

  /** What is written never ends with the code of an inline suite. */
  lemma EndsWithoutCode(suites: seq<Suite>)
    requires forall s :: s in suites ==> Writable(s)
    ensures Written(suites) != [] ==> !Written(suites)[|Written(suites)| - 1].InlineClass?
  {
    if suites != [] {
      var front, last := suites[..|suites| - 1], suites[|suites| - 1];
      LastItem(Written(front), last, LastFile(front));
    }
  }

  lemma LastItem(items: seq<Item>, s: Suite, lastIncluded: string)
    requires Writable(s)
    ensures var all := items + ItemsOf(s, lastIncluded); all != [] && !all[|all| - 1].InlineClass?
  {
    var definitions, tests := Definitions(s), TestItems(s);
    assert ItemsOf(s, lastIncluded) == Heading(s, lastIncluded) + definitions + tests;
    assert tests != [] ==> tests[|tests| - 1].TestDescription?;
  }

  lemma LayoutLonger(items: seq<Item>, more: seq<Item>, suites: seq<Suite>, at: seq<nat>)
    requires AllPaired(suites) && Layout(items, suites, at)
    ensures Layout(items + more, suites, at)
  {
    forall i | 0 <= i < |suites| ensures suites[i] in suites && StandsAt(items + more, at[i], suites[i]) {
      StandsLonger(items, more, at[i], suites[i]);
    }
  }

  lemma OneMoreStands(items: seq<Item>, front: seq<Suite>, at: seq<nat>, last: Suite, n: nat)
    requires AllPaired(front) && AllPaired(front + [last]) && Layout(items, front, at)
    requires (last.create.Some? <==> last.destroy.Some?) && StandsAt(items, n, last)
    requires forall i :: 0 <= i < |front| ==> at[i] + 3 + |front[i].tests| <= n
    ensures Layout(items, front + [last], at + [n])
  {
    var suites := front + [last];
    forall i | 0 <= i < |suites| ensures suites[i] in suites && StandsAt(items, (at + [n])[i], suites[i]) {
      if i < |front| { assert front[i] in front; }
    }
  }

  /** All of them stand inside the items. */
  lemma LayoutInside(items: seq<Item>, suites: seq<Suite>, at: seq<nat>)
    requires AllPaired(suites) && Layout(items, suites, at)
    ensures forall i :: 0 <= i < |suites| ==> at[i] + 3 + |suites[i].tests| <= |items|
  {
    forall i | 0 <= i < |suites| ensures at[i] + 3 + |suites[i].tests| <= |items| {
      assert suites[i] in suites && StandsAt(items, at[i], suites[i]);
    }
  }

  /** Where the definitions of the next suite stand. */
  function NextAt(items: seq<Item>, s: Suite): nat {
    |items + Heading(s, Included(items))|
  }

  lemma NextLayout(items: seq<Item>, front: seq<Suite>, last: Suite, at: seq<nat>)
    requires AllPaired(front) && AllPaired(front + [last]) && (last.create.Some? <==> last.destroy.Some?)
    requires Layout(items, front, at) && (items != [] ==> !items[|items| - 1].InlineClass?)
    ensures Layout(items + ItemsOf(last, Included(items)), front + [last], at + [NextAt(items, last)])
  {
    AppendedStands(items, last);
    LayoutInside(items, front, at);
    LayoutLonger(items, ItemsOf(last, Included(items)), front, at);
    OneMoreStands(items + ItemsOf(last, Included(items)), front, at, last, NextAt(items, last));
  }

  lemma FrontAndLast(suites: seq<Suite>)
    requires suites != [] && AllPaired(suites)
    ensures var front, last := suites[..|suites| - 1], suites[|suites| - 1];
            AllPaired(front) && (last.create.Some? <==> last.destroy.Some?) && suites == front + [last]
  {
    var front, last := suites[..|suites| - 1], suites[|suites| - 1];
    assert last in suites && forall s | s in front :: s in suites;
  }

  lemma PairedIsWritable(suites: seq<Suite>)
    requires AllPaired(suites)
    ensures forall s :: s in suites ==> Writable(s)
  { }

  lemma {:induction false} WrittenNext(suites: seq<Suite>)
    requires suites != [] && (forall s :: s in suites ==> Writable(s)) && AllPaired(suites[..|suites| - 1])
    ensures var front, last := suites[..|suites| - 1], suites[|suites| - 1];
            && last in suites && (forall s :: s in front ==> Writable(s))
            && Written(suites) == Written(front) + ItemsOf(last, Included(Written(front)))
  {
    EverySuiteIsWritten(suites[..|suites| - 1]);
    assert suites[|suites| - 1] in suites;
  }

  /** The suites stand in the output one behind the other, each as it should. */
  lemma {:induction false} SuitesStandInOrder(suites: seq<Suite>) returns (at: seq<nat>)
    requires AllPaired(suites)
    ensures forall s :: s in suites ==> Writable(s)
    ensures Layout(Written(suites), suites, at)
    decreases |suites|
  {
    PairedIsWritable(suites);
    at := [];
    if suites != [] {
      FrontAndLast(suites);
      WrittenNext(suites);
      var front, last := suites[..|suites| - 1], suites[|suites| - 1];
      at := SuitesStandInOrder(front);
      EndsWithoutCode(front);
      NextLayout(Written(front), front, last, at);
      at := at + [NextAt(Written(front), last)];
    }
  }

  /** Everything among the items but the descriptions of tests. */
  function DefinitionsIn(items: seq<Item>): seq<Item>
    decreases |items|
  {
    if items == [] then []
    else
      var front, last := DefinitionsIn(items[..|items| - 1]), items[|items| - 1];
      if last.TestDescription? then front else front + [last]
  }

  /** What one suite needs, if this file was included last. */
  function NeededBy(s: Suite, included: string): seq<Item>
    requires s.create.Some? <==> s.destroy.Some?
  {
    (if s.file == included then [] else [Include(s.file)])
    + (if s.generated then [InlineClass(s.name, s.blockLines)] else [])
    + (if s.create.Some?
       then [SuitePointer(s.name), TestList(s.name),
             DynamicDescription(s.file, s.line, s.name, s.create.value, s.destroy.value)]
       else [SuiteObject(s.name), TestList(s.name), StaticDescription(s.file, s.line, s.name)])
  }

  function NeededByAll(suites: seq<Suite>): seq<Item>
    requires AllPaired(suites)
    decreases |suites|
  {
    if suites == [] then []
    else
      var front, last := suites[..|suites| - 1], suites[|suites| - 1];
      assert last in suites && forall s | s in front :: s in suites;
      NeededByAll(front) + NeededBy(last, LastFile(front))
  }

  lemma {:induction false} DefinitionsConcat(a: seq<Item>, b: seq<Item>)
    ensures DefinitionsIn(a + b) == DefinitionsIn(a) + DefinitionsIn(b)
    decreases |b|
  {
    if b == [] {
      assert a + b == a;
    } else {
      assert (a + b)[..|a + b| - 1] == a + b[..|b| - 1];
      DefinitionsConcat(a, b[..|b| - 1]);
    }
  }

  lemma {:induction false} AllDefinitions(items: seq<Item>)
    requires forall x :: x in items ==> !x.TestDescription?
    ensures DefinitionsIn(items) == items
    decreases |items|
  {
    if items != [] { AllDefinitions(items[..|items| - 1]); }
  }

  lemma {:induction false} NoDefinitions(items: seq<Item>)
    requires forall x :: x in items ==> x.TestDescription?
    ensures DefinitionsIn(items) == []
    decreases |items|
  {
    if items != [] { NoDefinitions(items[..|items| - 1]); }
  }

  lemma DefinitionsOfSuite(s: Suite, included: string)
    requires s.create.Some? <==> s.destroy.Some?
    ensures DefinitionsIn(ItemsOf(s, included)) == NeededBy(s, included)
  {
    var head := Heading(s, included) + Definitions(s);
    AllDefinitions(head);
    NoDefinitions(TestItems(s));
    DefinitionsConcat(head, TestItems(s));
  }

  /** Nothing else is written: beside the descriptions of tests, the output holds exactly what the suites need. */
  lemma {:induction false} DefinitionsOfSuites(suites: seq<Suite>)
    requires AllPaired(suites)
    ensures forall s :: s in suites ==> Writable(s)
    ensures DefinitionsIn(Written(suites)) == NeededByAll(suites)
    decreases |suites|
  {
    EverySuiteIsWritten(suites);
    if suites != [] {
      var front, last := suites[..|suites| - 1], suites[|suites| - 1];
      assert last in suites && forall s | s in front :: s in suites;
      DefinitionsOfSuites(front);
      DefinitionsConcat(Written(front), ItemsOf(last, LastFile(front)));
      DefinitionsOfSuite(last, LastFile(front));
    }
  }

  /** From the lines to the output, for any files: if the generator does not abort, it writes one description
      for every scanned test line, in order, and no other. Every suite it has to write is writable. */
  lemma EveryFoundTestIsWritten(files: seq<File>, root: bool)
    requires Scan(files, root).Ok?
    ensures forall s :: s in Scan(files, root).value ==> Writable(s)
    ensures TestsWritten(Written(Scan(files, root).value)) == FoundInAll(files)
  {
    RememberedArePaired(files, root);
    ScanIff(files, root);
    TestsOfSuites(SuitesOfAll(files));
    AllSuitesHoldTheFoundTests(files);
  }

  /** No test is lost between the lines and the output if and only if no test line of an inline suite is
      outside a block or ends one; a block left open in one suite or file counts as open in the next inline
      suite. In particular none is lost in plain suites. */
  lemma NoTestIsLostIff(files: seq<File>, root: bool)
    requires Scan(files, root).Ok?
    ensures forall s :: s in Scan(files, root).value ==> Writable(s)
    ensures TestsWritten(Written(Scan(files, root).value)) == TestLinesOfAll(files) <==> NoneIsLost(files)
  {
    EveryFoundTestIsWritten(files, root);
    FoundInAllIff(files);
  }

  /** An instance: the only test stands on the line that ends the only block. */
  lemma InlineTestLost(name: string, test: string)
    ensures var f := File("t.h", [Line(None, Some(name), None, false, false, false, false),
                                  Line(None, None, Some(test), false, false, true, true)]);
            && IsLost(false, f, 1)
            && FoundTests(false, f, 2) == [] && TestLines(f, 2) == [Description("t.h", 1, Test(test, 2))]
  {
    var f := File("t.h", [Line(None, Some(name), None, false, false, false, false),
                          Line(None, None, Some(test), false, false, true, true)]);
    assert Owner(f, 1) == Some(0);
    assert Owner(f, 2) == Some(0);
    assert TestLines(f, 1) == [] && FoundTests(false, f, 1) == [];
  }
}
