/** The command-line search: ask the service for the cameras whose name
    contains the term, write one line per camera in ascending number order,
    and exit with 1 when anything was found. The service is given as its
    `SearchAsync` function; the console is the sequence of lines written. */
module SearchRunner {
  import opened Wrappers
  import opened Errors
  import opened Text
  import opened Models
  import opened Seqs
  import CsvParser

  // ------------------------------------------------------ stable ordering

  predicate SortedByNumber(s: seq<Camera>) {
    forall i, j :: 0 <= i < j < |s| ==> s[i].number <= s[j].number
  }

  /** The test "this camera has number `v`". */
  function HasNumber(v: int): Camera -> bool {
    (c: Camera) => c.number == v
  }

  /** `x` placed after every element of `t` that does not have a larger
      number: the step of a stable insertion sort. */
  function Insert(t: seq<Camera>, x: Camera): seq<Camera>
    decreases |t|
  {
    if t == [] || t[|t| - 1].number <= x.number then t + [x]
    else Insert(t[..|t| - 1], x) + [t[|t| - 1]]
  }

  /** LINQ `OrderBy(c => c.Number)`: a stable sort by number. */
  function OrderByNumber(s: seq<Camera>): seq<Camera> {
    if s == [] then [] else Insert(OrderByNumber(s[..|s| - 1]), s[|s| - 1])
  }

  lemma {:induction false} InsertPermutes(t: seq<Camera>, x: Camera)
    ensures multiset(Insert(t, x)) == multiset(t) + multiset{x}
    decreases |t|
  {
    if !(t == [] || t[|t| - 1].number <= x.number) {
      var init, last := t[..|t| - 1], t[|t| - 1];
      InsertPermutes(init, x);
      assert t == init + [last];
    }
  }

  lemma {:induction false} InsertSorted(t: seq<Camera>, x: Camera)
    requires SortedByNumber(t)
    ensures SortedByNumber(Insert(t, x))
    decreases |t|
  {
    if !(t == [] || t[|t| - 1].number <= x.number) {
      var init, last := t[..|t| - 1], t[|t| - 1];
      InsertSorted(init, x);
      InsertPermutes(init, x);
      var r := Insert(init, x);
      forall i | 0 <= i < |r| ensures r[i].number <= last.number {
        assert r[i] in multiset(r);
        assert r[i] in multiset(init) || r[i] == x;
      }
    }
  }

  /** Inserting `x` does not change the relative order of the elements
      that share a number: among those, `x` comes last. */
  lemma {:induction false} InsertStable(v: int, t: seq<Camera>, x: Camera)
    ensures Filter(HasNumber(v), Insert(t, x)) == Filter(HasNumber(v), t) + Filter(HasNumber(v), [x])
    decreases |t|
  {
    var p := HasNumber(v);
    if t == [] || t[|t| - 1].number <= x.number {
      FilterAppend(p, t, [x]);
    } else {
      var init, last := t[..|t| - 1], t[|t| - 1];
      assert t == init + [last];
      InsertStable(v, init, x);
      FilterAppend(p, Insert(init, x), [last]);
      FilterAppend(p, init, [last]);
      if x.number == v {
        assert Filter(p, [last]) == [];
      } else {
        assert Filter(p, [x]) == [];
      }
    }
  }

  /** The ordered list is sorted by number. */
  lemma {:induction false} OrderByNumberSorted(s: seq<Camera>)
    ensures SortedByNumber(OrderByNumber(s))
  {
    if s != [] {
      OrderByNumberSorted(s[..|s| - 1]);
      InsertSorted(OrderByNumber(s[..|s| - 1]), s[|s| - 1]);
    }
  }

  /** The ordered list holds exactly the cameras it was given. */
  lemma {:induction false} OrderByNumberPermutes(s: seq<Camera>)
    ensures multiset(OrderByNumber(s)) == multiset(s)
  {
    if s != [] {
      OrderByNumberPermutes(s[..|s| - 1]);
      InsertPermutes(OrderByNumber(s[..|s| - 1]), s[|s| - 1]);
      assert s == s[..|s| - 1] + [s[|s| - 1]];
    }
  }

  /** The ordering is stable: the cameras that share a number come out in
      the order they went in. */
  lemma {:induction false} OrderByNumberStable(v: int, s: seq<Camera>)
    ensures Filter(HasNumber(v), OrderByNumber(s)) == Filter(HasNumber(v), s)
  {
    if s != [] {
      var init, last := s[..|s| - 1], s[|s| - 1];
      OrderByNumberStable(v, init);
      InsertStable(v, OrderByNumber(init), last);
      assert s == init + [last];
      FilterAppend(HasNumber(v), init, [last]);
    }
  }

  // ---------------------------------------------------------- line format

  /** One output line: `{Number} | {Code} {Name} | {Latitude} | {Longitude}`.
      The coordinates are text already, so the invariant culture leaves
      them as they are. */
  function Line(c: Camera): string {
    FormatInt(c.number) + " | " + c.code + " " + c.name + " | " + c.latitude + " | " + c.longitude
  }

  /** The number leads the line: the camera-number extraction of the
      parser, run on a line, reads back the number it was written from. */
  lemma LineNumberRoundTrip(c: Camera)
    requires c.number >= 0
    ensures CsvParser.ExtractCameraNumber(Line(c)) == c.number
  {
    var ds := FormatNat(c.number);
    var line := Line(c);
    var rest := " | " + c.code + " " + c.name + " | " + c.latitude + " | " + c.longitude;
    assert line == ds + rest;
    assert line[|ds|] == ' ';
    assert forall m :: 0 <= m < |ds| ==> line[m] == ds[m];
    assert CsvParser.FirstDigitRun(line, 0, |ds|);
    CsvParser.ExtractCameraNumberSpec(line);
    assert line[0..|ds|] == ds;
    FormatNatRoundTrip(c.number);
  }

  // ------------------------------------------------------------ the run

  /** What the run writes and the exit code it returns. */
  datatype RunOutput = RunOutput(lines: seq<string>, exitCode: int)

  /** The term passed to the service: the argument, or "" for `null`. */
  function TermOrEmpty(term: Option<string>): string {
    if term.Some? then term.value else ""
  }

  /** The outcome of a run given the service's answer: its exception passed
      on, or the lines of the found cameras ordered by number and the exit
      code 1 when there was at least one. */
  function RunOutcome(found: Result<seq<Camera>, Exception>): Result<RunOutput, Exception> {
    match found
    case Failure(e) => Failure(e)
    case Success(cameras) =>
      Success(RunOutput(Map(Line, OrderByNumber(cameras)), if |cameras| > 0 then 1 else 0))
  }

  /** `RunAsync`: one search with the term or "", then one line per found
      camera in ascending number order, then the exit code. `asked` lists the
      terms the service was called with. */
  method Run(term: Option<string>, search: string -> Result<seq<Camera>, Exception>)
    returns (outcome: Result<RunOutput, Exception>, asked: seq<string>)
    ensures asked == [TermOrEmpty(term)]
    ensures outcome == RunOutcome(search(TermOrEmpty(term)))
  {
    var t := if term.Some? then term.value else "";
    asked := [t];
    var found := search(t);
    if found.Failure? {
      outcome := Failure(found.error);
      return;
    }
    var lines := WriteLines(OrderByNumber(found.value));
    outcome := Success(RunOutput(lines, if |found.value| > 0 then 1 else 0));
  }

  /** The `foreach` of `RunAsync`: one line per camera, in the given order. */
  method WriteLines(cameras: seq<Camera>) returns (lines: seq<string>)
    ensures lines == Map(Line, cameras)
  {
    lines := [];
    for i := 0 to |cameras|
      invariant lines == Map(Line, cameras[..i])
    {
      assert cameras[..i + 1][..i] == cameras[..i];
      lines := lines + [Line(cameras[i])];
    }
    assert cameras[..|cameras|] == cameras;
  }

  /** A successful search writes exactly one line per found camera, the
      `i`-th line for the `i`-th camera of a stable by-number ordering of
      them, and exits with 1 exactly when something was found. */
  lemma RunOutcomeSpec(cameras: seq<Camera>) returns (sorted: seq<Camera>)
    ensures RunOutcome(Success(cameras)).Success?
    ensures var out := RunOutcome(Success(cameras)).value;
      |out.lines| == |cameras| == |sorted| &&
      (out.exitCode == 1 <==> |cameras| > 0) && (out.exitCode == 0 <==> cameras == []) &&
      (forall i :: 0 <= i < |out.lines| ==> out.lines[i] == Line(sorted[i]))
    ensures SortedByNumber(sorted) && multiset(sorted) == multiset(cameras)
    ensures forall v: int :: Filter(HasNumber(v), sorted) == Filter(HasNumber(v), cameras)
  {
    sorted := OrderByNumber(cameras);
    OrderByNumberSorted(cameras);
    OrderByNumberPermutes(cameras);
    assert |sorted| == |cameras| by {
      assert |multiset(sorted)| == |multiset(cameras)|;
    }
    MapAt(Line, sorted);
    forall v: int ensures Filter(HasNumber(v), sorted) == Filter(HasNumber(v), cameras) {
      OrderByNumberStable(v, cameras);
    }
  }

  /** A failed search writes nothing: the exception is passed on. */
  lemma RunOutcomeFailure(e: Exception)
    ensures RunOutcome(Failure(e)) == Failure(e)
  {
  }
}
