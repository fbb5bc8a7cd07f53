/**
  The readiness wait of `launchGdbServer`: after starting gdbserver the harness
  reads its standard-error stream line by line, trimming each line, until a line
  starts with "Listening on port" or the stream ends. The stream is the
  sequence of lines gdbserver writes; reaching its end is `readLine` returning null.
 */
module GdbServer {
  import opened Common

  const ReadyBanner := "Listening on port"

  /** A stderr line that tells the harness gdbserver is listening. */
  predicate IsReadyLine(line: string) {
    StartsWith(Trim(line), ReadyBanner)
  }

  /** The index of the first line at or after `from` that satisfies `p`, if any. */
  function FirstFrom(lines: seq<string>, from: nat, p: string -> bool): (r: Option<nat>)
    requires from <= |lines|
    decreases |lines| - from
    ensures r.Some? ==> from <= r.value < |lines| && p(lines[r.value])
                        && forall i :: from <= i < r.value ==> !p(lines[i])
    ensures r.None? ==> forall i :: from <= i < |lines| ==> !p(lines[i])
  {
    if from == |lines| then None
    else if p(lines[from]) then Some(from)
    else FirstFrom(lines, from + 1, p)
  }

  /** The index of the first ready line of the stream, if any. */
  function FirstReadyLine(lines: seq<string>): Option<nat> {
    FirstFrom(lines, 0, IsReadyLine)
  }

  /**
    The read loop: consumes lines up to and including the first ready line, or the whole
    stream when none comes. `ready` tells whether the banner was seen; `consumed` is how
    many lines were read.
   */
  method AwaitGdbServerReady(stderr: seq<string>) returns (consumed: nat, ready: bool)
    ensures consumed <= |stderr|
    ensures ready <==> FirstReadyLine(stderr).Some?
    ensures ready ==> FirstReadyLine(stderr) == Some(consumed - 1)
    ensures !ready ==> consumed == |stderr|
  {
    consumed := 0;
    ready := false;
    while consumed < |stderr|
      invariant consumed <= |stderr|
      invariant FirstFrom(stderr, consumed, IsReadyLine) == FirstReadyLine(stderr)
    {
      var line := Trim(stderr[consumed]);
      consumed := consumed + 1;
      if StartsWith(line, ReadyBanner) {
        ready := true;
        return;
      }
    }
  }
}
