/** The streaming benchmark of one model (benchmarkModel in main.go).

    The POST to /api/generate is outside the model; its outcome is a
    GenerateReply: a transport error, or a status code with the lines that
    bufio.Scanner yields from the body (the stream ends at end of body, at a
    read error or when the benchmark deadline cancels the request).

    time.Now() is the clock: `clock(i)` is the reading returned by the i-th
    call. A reading carries the wall time, in nanoseconds since Go's zero
    time (1 January of year 1, UTC), and the monotonic reading that Go's
    Time.Sub uses when both operands have one. */
module Benchmark {
  import Decimal

  /** One line of the body. Undecodable is a line json.Unmarshal rejects:
      invalid JSON, a value other than an object or null, or an object
      holding a number outside float64's range. Such a line never ends the
      stream, even when its "done" is true. Otherwise the line is Decoded,
      with done telling whether its "done" member is the boolean true. */
  datatype Line = Undecodable | Decoded(done: bool)

  datatype GenerateReply = ConnectionError | Reply(status: int, lines: seq<Line>)

  datatype Reading = Reading(wall: int, mono: int)

  datatype Status = ConnectionFailed | HttpError(code: int) | NoResponseData | ZeroTimeInterval | Success

  /** What benchmarkModel returns: a duration in nanoseconds, a rate in
      lines per second and a status. */
  datatype Measurement = Measurement(latency: int, tokensPerSec: real, status: Status)

  const StatusOK := 200
  const NanosPerSecond := 1_000_000_000
  /** time.Duration is an int64 count of nanoseconds. */
  const MaxDuration := 0x7FFF_FFFF_FFFF_FFFF
  const MinDuration := -0x8000_0000_0000_0000
  /** The zero time.Time, the operand of firstToken.Sub(time.Time{}). */
  const ZeroTimeWall := 0
  /** Wall reading of 1 January 2000, 00:00 UTC: 63082281600 seconds after the zero time. */
  const Year2000Wall := 63_082_281_600 * NanosPerSecond

  /** The status text benchmarkModel returns. */
  function StatusText(s: Status): (text: string)
    ensures |text| >= 5
    ensures text[0] == 'H' <==> s.HttpError?
    ensures s.HttpError? ==> text[..5] == "HTTP " && text[5..] == Decimal.Format(s.code)
  {
    match s
    case ConnectionFailed => "Connection failed"
    case HttpError(code) => "HTTP " + Decimal.Format(code)
    case NoResponseData => "No response data"
    case ZeroTimeInterval => "Zero time interval"
    case Success => "Success"
  }

  /** Time.Sub: the difference, saturated to the range of a Duration. */
  function Sub(t: int, u: int): (d: int)
    ensures MinDuration <= d <= MaxDuration
    ensures MinDuration <= t - u <= MaxDuration ==> d == t - u
    ensures t - u > MaxDuration ==> d == MaxDuration
    ensures t - u < MinDuration ==> d == MinDuration
    ensures d == 0 <==> t == u
    ensures d > 0 <==> t > u
  {
    if t - u > MaxDuration then MaxDuration
    else if t - u < MinDuration then MinDuration
    else t - u
  }

  /** A line that makes the loop break. */
  predicate EndsStream(l: Line) {
    l.Decoded? && l.done
  }

  /** How many lines the loop consumes (and counts): up to and including the
      first line that ends the stream, or all of them. */
  function Consumed(lines: seq<Line>): (n: nat)
    ensures n <= |lines|
    ensures lines != [] ==> n > 0
    ensures forall k :: 0 <= k < n - 1 ==> !EndsStream(lines[k])
    ensures n < |lines| ==> EndsStream(lines[n - 1])
  {
    if lines == [] then 0
    else if EndsStream(lines[0]) then 1
    else 1 + Consumed(lines[1..])
  }

  /** The loop of benchmarkModel (main.go:467-482). The first line reads the
      clock twice (firstToken, then lastToken), every later line once. */
  method ReadStream(lines: seq<Line>, clock: nat -> Reading)
    returns (firstToken: Reading, lastToken: Reading, tokenCount: nat)
    ensures tokenCount == Consumed(lines)
    ensures tokenCount > 0 ==> firstToken == clock(0) && lastToken == clock(tokenCount)
  {
    firstToken, lastToken, tokenCount := Reading(ZeroTimeWall, 0), Reading(ZeroTimeWall, 0), 0;
    var calls: nat := 0;  // how often time.Now() has been called
    var n := 0;
    while n < |lines|
      invariant 0 <= n <= |lines|
      invariant tokenCount == n
      invariant calls == if n == 0 then 0 else n + 1
      invariant forall k :: 0 <= k < n ==> !EndsStream(lines[k])
      invariant n > 0 ==> firstToken == clock(0) && lastToken == clock(n)
    {
      if tokenCount == 0 {
        firstToken := clock(calls);
        calls := calls + 1;
      }
      lastToken := clock(calls);
      calls := calls + 1;
      tokenCount := tokenCount + 1;
      var line := lines[n];
      n := n + 1;
      if line.Undecodable? {
        continue;
      }
      if line.done {
        break;
      }
    }
  }

  /** The classification after the loop (main.go:484-494). */
  function Classify(tokenCount: nat, firstToken: Reading, lastToken: Reading): (m: Measurement)
    ensures m.status == NoResponseData <==> tokenCount == 0
    ensures m.status == ZeroTimeInterval <==> tokenCount > 0 && lastToken.mono == firstToken.mono
    ensures m.status == Success <==> tokenCount > 0 && lastToken.mono != firstToken.mono
    ensures m.status != Success ==> m.latency == 0 && m.tokensPerSec == 0.0
    ensures m.status == Success && lastToken.mono > firstToken.mono ==> m.tokensPerSec > 0.0
  {
    if tokenCount == 0 then Measurement(0, 0.0, NoResponseData)
    else
      var elapsed := Sub(lastToken.mono, firstToken.mono);
      if elapsed == 0 then Measurement(0, 0.0, ZeroTimeInterval)
      else
        var seconds := (elapsed as real) / (NanosPerSecond as real);
        Measurement(Sub(firstToken.wall, ZeroTimeWall), (tokenCount as real) / seconds, Success)
  }

  /** The whole of benchmarkModel as a function of the reply and the clock. */
  function Measure(reply: GenerateReply, clock: nat -> Reading): (m: Measurement)
    ensures m.status.HttpError? ==> m.status.code != StatusOK
    ensures m.status == Success ==> reply.Reply? && reply.status == StatusOK && reply.lines != []
    ensures m.status != Success ==> m.latency == 0 && m.tokensPerSec == 0.0
  {
    match reply
    case ConnectionError => Measurement(0, 0.0, ConnectionFailed)
    case Reply(status, lines) =>
      if status != StatusOK then Measurement(0, 0.0, HttpError(status))
      else
        var n := Consumed(lines);
        Classify(n, clock(0), clock(n))
  }

  /** benchmarkModel (main.go:434-495). */
  method BenchmarkModel(reply: GenerateReply, clock: nat -> Reading) returns (m: Measurement)
    ensures m == Measure(reply, clock)
  {
    if reply.ConnectionError? {
      return Measurement(0, 0.0, ConnectionFailed);
    }
    if reply.status != StatusOK {
      return Measurement(0, 0.0, HttpError(reply.status));
    }
    var firstToken, lastToken, tokenCount := ReadStream(reply.lines, clock);
    if tokenCount == 0 {
      return Measurement(0, 0.0, NoResponseData);
    }
    var totalTime := Sub(lastToken.mono, firstToken.mono);
    if totalTime == 0 {
      return Measurement(0, 0.0, ZeroTimeInterval);
    }
    var tokensPerSec := (tokenCount as real) / ((totalTime as real) / (NanosPerSecond as real));
    m := Measurement(Sub(firstToken.wall, ZeroTimeWall), tokensPerSec, Success);
  }

  ghost predicate MonotoneClock(clock: nat -> Reading) {
    forall i: nat, j: nat :: i <= j ==> clock(i).mono <= clock(j).mono
  }

  /** The status of each case, and the zero latency and rate of every
      failure. */
  lemma StatusByCase(reply: GenerateReply, clock: nat -> Reading)
    ensures var m := Measure(reply, clock);
      && (m.status == ConnectionFailed <==> reply.ConnectionError?)
      && (m.status.HttpError? <==> reply.Reply? && reply.status != StatusOK)
      && (m.status.HttpError? ==> m.status.code == reply.status)
      && (m.status == NoResponseData <==> reply.Reply? && reply.status == StatusOK && reply.lines == [])
      && (m.status == ZeroTimeInterval <==>
            reply.Reply? && reply.status == StatusOK && reply.lines != [] &&
            clock(Consumed(reply.lines)).mono == clock(0).mono)
      && (m.status != Success ==> m.latency == 0 && m.tokensPerSec == 0.0)
  {
  }

  /** With a monotonic clock the last reading is never before the first, the
      rate is never negative, and a success has a positive rate: the number
      of lines consumed per second between the first and the last reading. */
  lemma RateIsPositiveOnSuccess(reply: GenerateReply, clock: nat -> Reading)
    requires MonotoneClock(clock)
    ensures var m := Measure(reply, clock);
      && m.tokensPerSec >= 0.0
      && (m.status == Success ==>
            var n := Consumed(reply.lines);
            var elapsed := clock(n).mono - clock(0).mono;
            && 0 < elapsed
            && (elapsed <= MaxDuration ==>
                  m.tokensPerSec == (n as real) * (NanosPerSecond as real) / (elapsed as real))
            && m.tokensPerSec > 0.0)
  {
    if reply.Reply? && reply.status == StatusOK && reply.lines != [] {
      var n := Consumed(reply.lines);
      assert clock(0).mono <= clock(n).mono;
    }
  }

  /** Consumption stops at the first line with done == true: whatever the
      body holds after it changes nothing. */
  lemma {:induction false} ConsumedIgnoresRest(lines: seq<Line>, rest: seq<Line>)
    requires exists k :: 0 <= k < |lines| && EndsStream(lines[k])
    ensures Consumed(lines + rest) == Consumed(lines)
  {
    if !EndsStream(lines[0]) {
      var k :| 0 <= k < |lines| && EndsStream(lines[k]);
      assert EndsStream(lines[1..][k - 1]);
      assert (lines + rest)[1..] == lines[1..] + rest;
      ConsumedIgnoresRest(lines[1..], rest);
    }
  }

  lemma IgnoresLinesAfterDone(status: int, lines: seq<Line>, rest: seq<Line>, clock: nat -> Reading)
    requires exists k :: 0 <= k < |lines| && EndsStream(lines[k])
    ensures Measure(Reply(status, lines + rest), clock) == Measure(Reply(status, lines), clock)
  {
    ConsumedIgnoresRest(lines, rest);
  }

  /** Undecodable lines are counted like any other: without a done line,
      every line is consumed. */
  lemma CountsEveryLineWithoutDone(lines: seq<Line>)
    requires forall k :: 0 <= k < |lines| ==> !EndsStream(lines[k])
    ensures Consumed(lines) == |lines|
  {
  }

  /** A one-line body is a success whenever the clock advances between the
      two readings that line takes, so "Zero time interval" does not mean a
      single line: the rate is then one line per gap between two consecutive
      clock calls. */
  lemma SingleLineSucceeds(line: Line, clock: nat -> Reading)
    requires clock(0).mono < clock(1).mono <= clock(0).mono + MaxDuration
    ensures var m := Measure(Reply(StatusOK, [line]), clock);
      m.status == Success &&
      m.tokensPerSec == (NanosPerSecond as real) / ((clock(1).mono - clock(0).mono) as real)
  {
    assert Consumed([line]) == 1;
  }

  /** The latency returned on success is the wall time since the zero time
      (firstToken.Sub(time.Time{})), not a delay after the request: for any
      first reading taken after the year 2000 it is the largest Duration. */
  lemma LatencyIsSaturatedWallTime(reply: GenerateReply, clock: nat -> Reading)
    requires clock(0).wall >= Year2000Wall
    ensures var m := Measure(reply, clock);
      m.status == Success ==> m.latency == MaxDuration
  {
  }

  /** Different statuses have different texts. */
  lemma StatusTextInjective(a: Status, b: Status)
    ensures StatusText(a) == StatusText(b) ==> a == b
  {
    if StatusText(a) == StatusText(b) {
      if a.HttpError? && b.HttpError? {
        assert StatusText(a)[5..] == Decimal.Format(a.code);
        assert StatusText(b)[5..] == Decimal.Format(b.code);
        Decimal.FormatInjective(a.code, b.code);
      }
    }
  }
}
