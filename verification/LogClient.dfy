/** The driver's streaming loop: each status carries the whole log so far, and only what is
    new is printed. */
module LogClient {
  import opened Wrappers
  import opened Strings
  import opened JobStates

  datatype Message = Nothing | Update(status: Option<Progress>) | Confirmation(status: Option<Progress>)

  /** A printed line: compiler output goes to stderr, the rest through the logger. */
  datatype Line = Line(toStderr: bool, text: string)

  datatype ClientError = StreamError | NoStatus

  datatype Outcome = Outcome(result: JobResult, exitCode: int)

  function StatusOf(m: Message): Option<Progress> {
    match m
    case Nothing => None
    case Update(s) => s
    case Confirmation(s) => s
  }

  /** The statuses the loop processes: those present, up to the first terminal one. */
  function Seen(stream: seq<Message>): seq<Progress> {
    if stream == [] then []
    else
      match StatusOf(stream[0])
      case None => Seen(stream[1..])
      case Some(p) => if IsTerminal(p.status) then [p] else [p] + Seen(stream[1..])
  }

  function NonEmpty(lines: seq<string>): seq<string> {
    if lines == [] then []
    else (if lines[0] == "" then [] else [lines[0]]) + NonEmpty(lines[1..])
  }

  function ToLine(text: string): Line {
    Line(HasPrefix(text, "[stdout]") || HasPrefix(text, "[stderr]"), text)
  }

  function ToLines(texts: seq<string>): (r: seq<Line>)
    ensures |r| == |texts|
  {
    seq(|texts|, i requires 0 <= i < |texts| => ToLine(texts[i]))
  }

  /** The non-empty lines of a text. */
  function LinesOf(text: string): seq<string> { NonEmpty(Split(text, '\n')) }

  /** lastLogLength after these statuses. */
  function Consumed(seen: seq<Progress>): nat {
    if seen == [] then 0
    else
      var before := Consumed(seen[..|seen| - 1]);
      var now := |seen[|seen| - 1].log|;
      if now > before then now else before
  }

  /** What a log adds to the length already seen. */
  function NewPart(log: string, length: nat): string {
    if |log| > length then log[length..] else ""
  }

  /** What the last of these statuses adds. */
  function Delta(seen: seq<Progress>): string
    requires seen != []
  {
    NewPart(seen[|seen| - 1].log, Consumed(seen[..|seen| - 1]))
  }

  /** All deltas one after the other. */
  function Streamed(seen: seq<Progress>): string {
    if seen == [] then "" else Streamed(seen[..|seen| - 1]) + Delta(seen)
  }

  /** All lines printed, delta by delta. */
  function Printed(seen: seq<Progress>): seq<string> {
    if seen == [] then [] else Printed(seen[..|seen| - 1]) + LinesOf(Delta(seen))
  }

  function ResultStatusOf(s: Status): ResultStatus {
    match s
    case Completed => ResultCompleted
    case Failed => ResultFailed
    case Cancelled => ResultCancelled
    case _ => ResultUnspecified
  }

  /** The status' own result, or a minimal one built from the status. */
  function FinalResult(p: Progress): JobResult {
    match p.result
    case Some(r) => r
    case None => JobResult(ResultStatusOf(p.status), 0, [], None)
  }

  function ExitCodeOf(s: Status): int { if s == Failed || s == Cancelled then 1 else 0 }

  /** What the outcome says about the last status: exit code 1 exactly for FAILED and CANCELLED, and
      the result that came with the status, or else one that repeats the status. */
  ghost predicate Conveys(last: Progress, o: Outcome) {
    && (o.exitCode == 1 <==> last.status == Failed || last.status == Cancelled)
    && (o.exitCode == 0 <==> last.status != Failed && last.status != Cancelled)
    && (last.result.Some? ==> o.result == last.result.value)
    && (last.result.None? ==>
          && o.result.exitCode == 0 && o.result.outputs == [] && o.result.error == None
          && (o.result.status == ResultCompleted <==> last.status == Completed)
          && (o.result.status == ResultFailed <==> last.status == Failed)
          && (o.result.status == ResultCancelled <==> last.status == Cancelled))
  }

  /** Prints the lines of one delta; empty ones are skipped. */
  method PrintDelta(delta: string) returns (lines: seq<Line>)
    ensures lines == ToLines(LinesOf(delta))
  {
    lines := [];
    var parts := Split(delta, '\n');
    for i := 0 to |parts|
      invariant lines == ToLines(NonEmpty(parts[..i]))
    {
      NonEmptySnoc(parts[..i], parts[i]);
      assert parts[..i + 1] == parts[..i] + [parts[i]];
      if parts[i] != "" {
        if HasPrefix(parts[i], "[stdout]") || HasPrefix(parts[i], "[stderr]") {
          lines := lines + [Line(true, parts[i])];
        } else {
          lines := lines + [Line(false, parts[i])];
        }
      }
    }
    assert parts[..|parts|] == parts;
  }

  lemma NonEmptySnoc(parts: seq<string>, part: string)
    ensures ToLines(NonEmpty(parts + [part])) == ToLines(NonEmpty(parts)) + if part == "" then [] else [ToLine(part)]
  {
    NonEmptyConcat(parts, [part]);
    ToLinesConcat(NonEmpty(parts), NonEmpty([part]));
    assert [part][1..] == [];
  }

  /** Prints what a log adds to the length already printed. */
  method PrintNew(log: string, lastLogLength: nat) returns (lines: seq<Line>, length: nat)
    ensures lines == ToLines(LinesOf(NewPart(log, lastLogLength)))
    ensures length == if |log| > lastLogLength then |log| else lastLogLength
  {
    if |log| > lastLogLength {
      lines := PrintDelta(log[lastLogLength..]);
      length := |log|;
    } else {
      lines, length := [], lastLogLength;
    }
  }

  lemma PrintedSnoc(seen: seq<Progress>, p: Progress)
    ensures Consumed(seen + [p]) == if |p.log| > Consumed(seen) then |p.log| else Consumed(seen)
    ensures ToLines(Printed(seen + [p])) == ToLines(Printed(seen)) + ToLines(LinesOf(NewPart(p.log, Consumed(seen))))
  {
    assert (seen + [p])[..|seen + [p]| - 1] == seen;
    ToLinesConcat(Printed(seen), LinesOf(NewPart(p.log, Consumed(seen))));
  }

  /** `seen` are the statuses among the first i messages, none of them terminal. */
  ghost predicate SeenSoFar(stream: seq<Message>, i: nat, seen: seq<Progress>)
    requires i <= |stream|
  {
    Seen(stream) == seen + Seen(stream[i..])
  }

  lemma SeenStep(stream: seq<Message>, i: nat, seen: seq<Progress>)
    requires i < |stream| && SeenSoFar(stream, i, seen)
    ensures StatusOf(stream[i]).None? ==> SeenSoFar(stream, i + 1, seen)
    ensures StatusOf(stream[i]).Some? ==>
      var p := StatusOf(stream[i]).value;
      if IsTerminal(p.status) then Seen(stream) == seen + [p] else SeenSoFar(stream, i + 1, seen + [p])
  {
    assert stream[i..][0] == stream[i] && stream[i..][1..] == stream[i + 1..];
    var rest := Seen(stream[i + 1..]);
    match StatusOf(stream[i])
    case None => assert Seen(stream[i..]) == rest;
    case Some(p) =>
      if !IsTerminal(p.status) {
        assert Seen(stream[i..]) == [p] + rest;
        assert seen + ([p] + rest) == seen + [p] + rest;
      }
  }

  lemma ToLinesConcat(a: seq<string>, b: seq<string>)
    ensures ToLines(a + b) == ToLines(a) + ToLines(b)
  {
  }

  /** The status in message i of the receive loop, after those seen before it. */
  method PrintStatus(p: Progress, lastLogLength: nat, before: seq<Line>,
                     ghost stream: seq<Message>, ghost i: nat, ghost seen: seq<Progress>)
      returns (lines: seq<Line>, length: nat, ghost now: seq<Progress>)
    requires lastLogLength == Consumed(seen) && before == ToLines(Printed(seen))
    requires i < |stream| && StatusOf(stream[i]) == Some(p) && SeenSoFar(stream, i, seen)
    ensures now == seen + [p] && LastOf(now) == Some(p)
    ensures lines == ToLines(Printed(seen + [p])) && length == Consumed(seen + [p])
    ensures if IsTerminal(p.status) then Seen(stream) == now else SeenSoFar(stream, i + 1, now)
  {
    PrintedSnoc(seen, p);
    SeenStep(stream, i, seen);
    now := seen + [p];
    var printed;
    printed, length := PrintNew(p.log, lastLogLength);
    lines := before + printed;
  }

  /** The receive loop: everything up to the first terminal status is printed. */
  method Follow(stream: seq<Message>)
      returns (finalStatus: Option<Progress>, lines: seq<Line>, ghost seen: seq<Progress>)
    ensures seen == Seen(stream)
    ensures lines == ToLines(Printed(Seen(stream)))
    ensures finalStatus == LastOf(Seen(stream))
  {
    var lastLogLength := 0;
    finalStatus, lines, seen := None, [], [];
    assert stream[0..] == stream;
    for i := 0 to |stream|
      invariant SeenSoFar(stream, i, seen)
      invariant lastLogLength == Consumed(seen)
      invariant lines == ToLines(Printed(seen))
      invariant finalStatus == LastOf(seen)
    {
      var status := StatusOf(stream[i]);
      if status.None? {
        SeenStep(stream, i, seen);
      } else {
        finalStatus := Some(status.value);
        lines, lastLogLength, seen := PrintStatus(status.value, lastLogLength, lines, stream, i, seen);
        if IsTerminal(status.value.status) {
          return;
        }
      }
    }
    SeenAll(stream, seen);
  }

  lemma SeenAll(stream: seq<Message>, seen: seq<Progress>)
    requires SeenSoFar(stream, |stream|, seen)
    ensures Seen(stream) == seen
  {
    assert stream[|stream|..] == [];
  }

  function LastOf(seen: seq<Progress>): Option<Progress> {
    if seen == [] then None else Some(seen[|seen| - 1])
  }

  /** The loop, then the outcome of its last status. A stream that ends before any terminal
      status still counts as exit code 0. */
  method WatchAndStream(stream: seq<Message>, streamError: bool)
      returns (r: Result<Outcome, ClientError>, lines: seq<Line>)
    ensures lines == ToLines(Printed(Seen(stream)))
    ensures r.Failure? <==> streamError || Seen(stream) == []
    ensures r.Failure? ==> r.error == if streamError then StreamError else NoStatus
    ensures r.Success? ==>
      var last := Seen(stream)[|Seen(stream)| - 1];
      r.value == Outcome(FinalResult(last), ExitCodeOf(last.status)) && Conveys(last, r.value)
  {
    var finalStatus;
    ghost var seen;
    finalStatus, lines, seen := Follow(stream);
    if streamError {
      return Failure(StreamError), lines;
    }
    if finalStatus.None? {
      return Failure(NoStatus), lines;
    }
    var last := finalStatus.value;
    var result := if last.result.Some? then last.result.value else JobResult(ResultStatusOf(last.status), 0, [], None);
    var exitCode := 0;
    match last.status {
      case Completed => exitCode := 0;
      case Failed => exitCode := 1;
      case Cancelled => exitCode := 1;
      case _ =>
    }
    return Success(Outcome(result, exitCode)), lines;
  }

  // ---------- Growing logs are reproduced in full ----------

  /** Each log extends the ones before it. */
  ghost predicate Growing(ps: seq<Progress>) {
    forall i, j :: 0 <= i <= j < |ps| ==> ps[i].log <= ps[j].log
  }

  /** However many statuses were missed in between, the deltas add up to the last log. */
  lemma {:induction false} DeltasAddUp(seen: seq<Progress>)
    requires Growing(seen) && seen != []
    ensures Consumed(seen) == |seen[|seen| - 1].log|
    ensures Streamed(seen) == seen[|seen| - 1].log
  {
    var front, last := seen[..|seen| - 1], seen[|seen| - 1];
    if front != [] {
      DeltasAddUp(front);
      var previous := front[|front| - 1];
      assert previous == seen[|seen| - 2];
      assert previous.log <= last.log;
      assert last.log == previous.log + last.log[|previous.log|..];
    }
  }

  /** Confirmations count like updates, and messages without a status like none at all; a terminal
      status ends the loop. */
  lemma SeenOfMessage(m: Message, rest: seq<Message>)
    ensures m == Nothing || m == Update(None) || m == Confirmation(None) ==> Seen([m] + rest) == Seen(rest)
    ensures forall p :: m == Update(Some(p)) || m == Confirmation(Some(p)) ==>
      Seen([m] + rest) ==
        if p.status == Completed || p.status == Failed || p.status == Cancelled then [p] else [p] + Seen(rest)
  {
    assert ([m] + rest)[1..] == rest;
  }

  /** Compiler output, as the daemon reports it, goes to stderr; a line that does not start with a
      bracket goes through the logger. */
  lemma OutputGoesToStderr(source: string, line: string)
    ensures source == "stdout" || source == "stderr" ==> ToLine("[" + source + "] " + line).toStderr
    ensures line == "" || line[0] != '[' ==> !ToLine(line).toStderr
    ensures ToLine(line).text == line
  {
    var text := "[" + source + "] " + line;
    if source == "stdout" {
      assert text[..8] == "[stdout]";
    }
    if source == "stderr" {
      assert text[..8] == "[stderr]";
    }
    if HasPrefix(line, "[stdout]") {
      assert line[..8][0] == '[';
    }
    if HasPrefix(line, "[stderr]") {
      assert line[..8][0] == '[';
    }
  }

  /** A non-empty line with its newline is printed as that line, an empty one not at all. */
  lemma LineIsPrinted(line: string)
    requires '\n' !in line
    ensures LinesOf(line + "\n") == if line == "" then [] else [line]
  {
    SplitSkipsWord(line, "", '\n');
    assert line + ['\n'] + "" == line + "\n";
    NonEmptyConcat([line], [""]);
    assert [line][1..] == [] && [""][1..] == [];
  }

  /** Text that is empty or ends in a newline. */
  predicate WholeLines(s: string) { s == "" || s[|s| - 1] == '\n' }

  lemma {:induction false} NonEmptyConcat(a: seq<string>, b: seq<string>)
    ensures NonEmpty(a + b) == NonEmpty(a) + NonEmpty(b)
  {
    if a == [] {
      assert a + b == b;
    } else {
      assert (a + b)[1..] == a[1..] + b;
      NonEmptyConcat(a[1..], b);
    }
  }

  /** Cutting after a newline splits no line. */
  lemma LinesConcat(a: string, b: string)
    requires WholeLines(a)
    ensures LinesOf(a + b) == LinesOf(a) + LinesOf(b)
  {
    if a == "" {
      assert a + b == b;
    } else {
      var w := a[..|a| - 1];
      assert a + b == w + ['\n'] + b && a == w + ['\n'] + "";
      SplitConcat(w, b, '\n');
      SplitConcat(w, "", '\n');
      NonEmptyConcat(Split(w, '\n'), Split(b, '\n'));
      NonEmptyConcat(Split(w, '\n'), Split("", '\n'));
    }
  }

  /** When logs grow by whole lines, the lines printed are the non-empty lines of the last log. */
  lemma {:induction false} PrintedLinesAreLogLines(seen: seq<Progress>)
    requires Growing(seen) && seen != []
    requires forall i :: 0 <= i < |seen| ==> WholeLines(seen[i].log)
    ensures Printed(seen) == LinesOf(seen[|seen| - 1].log)
  {
    var front, last := seen[..|seen| - 1], seen[|seen| - 1];
    if front == [] {
      assert Delta(seen) == last.log;
    } else {
      var previous := seen[|seen| - 2];
      assert front[|front| - 1] == previous;
      PrintedLinesAreLogLines(front);
      DeltaContinues(seen);
      LinesConcat(previous.log, Delta(seen));
      assert Printed(seen) == LinesOf(previous.log) + LinesOf(Delta(seen));
    }
  }

  lemma DeltaContinues(seen: seq<Progress>)
    requires Growing(seen) && |seen| > 1
    ensures seen[|seen| - 1].log == seen[|seen| - 2].log + Delta(seen)
  {
    var front, last := seen[..|seen| - 1], seen[|seen| - 1];
    DeltasAddUp(front);
    var previous := front[|front| - 1];
    assert previous == seen[|seen| - 2];
    assert previous.log <= last.log;
    assert last.log == previous.log + last.log[|previous.log|..];
  }

  lemma {:induction false} SeenIsPrefix(ps: seq<Progress>) returns (n: nat)
    ensures n <= |ps| && Seen(Updates(ps)) == ps[..n]
    ensures ps != [] ==> n > 0
    ensures forall i :: 0 <= i < n - 1 ==> !IsTerminal(ps[i].status)
    ensures n < |ps| ==> IsTerminal(ps[n - 1].status)
  {
    if ps == [] {
      n := 0;
    } else {
      assert Updates(ps)[1..] == Updates(ps[1..]);
      if IsTerminal(ps[0].status) {
        n := 1;
      } else {
        var m := SeenIsPrefix(ps[1..]);
        n := m + 1;
        assert ps[..n] == [ps[0]] + ps[1..][..m];
      }
    }
  }

  /** A stream of plain status updates. */
  function Updates(ps: seq<Progress>): (r: seq<Message>)
    ensures |r| == |ps|
  {
    seq(|ps|, i requires 0 <= i < |ps| => Update(Some(ps[i])))
  }
}
