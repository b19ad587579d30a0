/** The servlet input stream as the read loop sees it. Whether data is
    ready, whether the body is finished and what each read returns are up to
    the container: each is an oracle, a sequence of the answers it will give
    in turn. Every call is recorded, with its answer, in `calls`. */
module InputStream {
  import opened JavaInt
  import CharsetBuffer

  /** The bytes one read can deliver: no more than the read buffer holds. */
  type Chunk = s: seq<byte> | |s| <= CharsetBuffer.CAPACITY witness []

  /** What one `read(buffer)` returns: a count of bytes (possibly zero)
      together with those bytes, or -1. */
  datatype ReadResult = Bytes(data: Chunk) | EndOfStream

  datatype Call =
    | ReadyQuery(ready: bool)
    | FinishedQuery(finished: bool)
    | ReadCall(result: ReadResult)

  function First<T>(s: seq<T>, default: T): T {
    if s == [] then default else s[0]
  }

  function Rest<T>(s: seq<T>): seq<T> {
    if s == [] then [] else s[1..]
  }

  /** The calls of the passes of the drain loop that went on to read: is the
      input ready (yes), is it finished (no), then the read. */
  function RoundsLog(taken: seq<ReadResult>): (cs: seq<Call>)
    ensures |cs| == 3 * |taken|
  {
    if taken == [] then []
    else Round(taken[0]) + RoundsLog(taken[1..])
  }

  /** The calls after the last read of a drain: the loop test that ended
      it, then the `isFinished()` check that follows the loop. */
  predicate IsDrainEnd(e: seq<Call>) {
    (|e| == 2 && e[0] == ReadyQuery(false) && e[1].FinishedQuery?) ||
    (|e| == 3 && e[0] == ReadyQuery(true) && e[1] == FinishedQuery(true) && e[2].FinishedQuery?)
  }

  /** The bytes of the reads that returned a count, in the order read;
      reads that returned -1 contribute nothing. */
  function Received(taken: seq<ReadResult>): (bytes: seq<byte>)
    ensures (forall k | 0 <= k < |taken| :: taken[k] == EndOfStream) ==> bytes == []
  {
    if taken == [] then []
    else (if taken[0].Bytes? then taken[0].data else []) + Received(taken[1..])
  }

  lemma {:induction false} ReceivedAppend(taken: seq<ReadResult>, r: ReadResult)
    ensures Received(taken + [r]) == Received(taken) + (if r.Bytes? then r.data else [])
  {
    if taken != [] {
      assert (taken + [r])[1..] == taken[1..] + [r];
      ReceivedAppend(taken[1..], r);
    }
  }

  lemma {:induction false} RoundsLogAppend(taken: seq<ReadResult>, r: ReadResult)
    ensures RoundsLog(taken + [r]) == RoundsLog(taken) + Round(r)
  {
    if taken != [] {
      assert (taken + [r])[1..] == taken[1..] + [r];
      RoundsLogAppend(taken[1..], r);
    }
  }

  /** Every read comes right after a readiness check that said yes and a
      finished check that said no. */
  predicate ReadsGuarded(cs: seq<Call>) {
    forall i | 0 <= i < |cs| && cs[i].ReadCall? ::
      2 <= i && cs[i - 2] == ReadyQuery(true) && cs[i - 1] == FinishedQuery(false)
  }

  /** Every finished check comes right after a readiness check (in the loop
      test, after a "yes"; after the loop, whatever it said) or right after
      a finished check that said yes (the check that follows the loop). */
  predicate FinishedAfterReady(cs: seq<Call>) {
    forall i | 0 <= i < |cs| && cs[i].FinishedQuery? ::
      1 <= i && (cs[i - 1].ReadyQuery? || cs[i - 1] == FinishedQuery(true))
  }

  /** Nothing is read once a check has said "not ready" or "finished". */
  predicate NoReadAfterStop(cs: seq<Call>) {
    forall i, j | 0 <= i < j < |cs| && (cs[i] == ReadyQuery(false) || cs[i] == FinishedQuery(true)) ::
      !cs[j].ReadCall?
  }

  /** The calls of one read pass. */
  function Round(r: ReadResult): seq<Call> {
    [ReadyQuery(true), FinishedQuery(false), ReadCall(r)]
  }

  lemma ReadsGuardedStep(r: ReadResult, tail: seq<Call>)
    requires ReadsGuarded(tail)
    ensures ReadsGuarded(Round(r) + tail)
  {
    var cs := Round(r) + tail;
    forall i | 0 <= i < |cs| && cs[i].ReadCall?
      ensures 2 <= i && cs[i - 2] == ReadyQuery(true) && cs[i - 1] == FinishedQuery(false)
    {
      if i >= 3 {
        assert tail[i - 3].ReadCall?;
      }
    }
  }

  lemma FinishedAfterReadyStep(r: ReadResult, tail: seq<Call>)
    requires FinishedAfterReady(tail) && (tail != [] ==> tail[0].ReadyQuery?)
    ensures FinishedAfterReady(Round(r) + tail)
  {
    var cs := Round(r) + tail;
    forall i | 0 <= i < |cs| && cs[i].FinishedQuery?
      ensures 1 <= i && (cs[i - 1].ReadyQuery? || cs[i - 1] == FinishedQuery(true))
    {
      if i >= 3 {
        assert tail[i - 3].FinishedQuery?;
      }
    }
  }

  lemma NoReadAfterStopStep(r: ReadResult, tail: seq<Call>)
    requires NoReadAfterStop(tail)
    ensures NoReadAfterStop(Round(r) + tail)
  {
    var cs := Round(r) + tail;
    forall i, j | 0 <= i < j < |cs| && (cs[i] == ReadyQuery(false) || cs[i] == FinishedQuery(true))
      ensures !cs[j].ReadCall?
    {
      assert tail[i - 3] == cs[i] && tail[j - 3] == cs[j];
    }
  }

  lemma DrainEndOrder(e: seq<Call>)
    requires IsDrainEnd(e) || e == []
    ensures ReadsGuarded(e) && FinishedAfterReady(e) && NoReadAfterStop(e)
    ensures e != [] ==> e[0].ReadyQuery?
  {
    assert forall i | 0 <= i < |e| :: !e[i].ReadCall?;
  }

  /** The order of calls in one drain, whether it ended normally (`e` an
      end as above) or because appending the last read failed (`e` empty). */
  lemma {:induction false} DrainOrder(taken: seq<ReadResult>, e: seq<Call>)
    requires IsDrainEnd(e) || e == []
    ensures ReadsGuarded(RoundsLog(taken) + e)
    ensures FinishedAfterReady(RoundsLog(taken) + e)
    ensures NoReadAfterStop(RoundsLog(taken) + e)
    ensures RoundsLog(taken) + e != [] ==> (RoundsLog(taken) + e)[0].ReadyQuery?
  {
    if taken == [] {
      assert RoundsLog(taken) + e == e;
      DrainEndOrder(e);
    } else {
      DrainOrder(taken[1..], e);
      var tail := RoundsLog(taken[1..]) + e;
      assert RoundsLog(taken) + e == Round(taken[0]) + tail;
      ReadsGuardedStep(taken[0], tail);
      FinishedAfterReadyStep(taken[0], tail);
      NoReadAfterStopStep(taken[0], tail);
    }
  }

  class Input {
    /** Answers `isReady()` will give; `false` once used up. */
    var readyAnswers: seq<bool>
    /** Answers `isFinished()` will give; `false` once used up. */
    var finishedAnswers: seq<bool>
    /** Results `read(buffer)` will give; -1 once used up. */
    var readResults: seq<ReadResult>
    var calls: seq<Call>

    constructor (readyAnswers: seq<bool>, finishedAnswers: seq<bool>, readResults: seq<ReadResult>)
      ensures this.readyAnswers == readyAnswers && this.finishedAnswers == finishedAnswers
      ensures this.readResults == readResults && calls == []
    {
      this.readyAnswers := readyAnswers;
      this.finishedAnswers := finishedAnswers;
      this.readResults := readResults;
      calls := [];
    }

    method IsReady() returns (ready: bool)
      modifies this
      ensures ready == First(old(readyAnswers), false) && readyAnswers == Rest(old(readyAnswers))
      ensures ready ==> |readyAnswers| < |old(readyAnswers)|
      ensures finishedAnswers == old(finishedAnswers) && readResults == old(readResults)
      ensures calls == old(calls) + [ReadyQuery(ready)]
    {
      ready := First(readyAnswers, false);
      readyAnswers := Rest(readyAnswers);
      calls := calls + [ReadyQuery(ready)];
    }

    method IsFinished() returns (finished: bool)
      modifies this
      ensures finished == First(old(finishedAnswers), false) && finishedAnswers == Rest(old(finishedAnswers))
      ensures readyAnswers == old(readyAnswers) && readResults == old(readResults)
      ensures calls == old(calls) + [FinishedQuery(finished)]
    {
      finished := First(finishedAnswers, false);
      finishedAnswers := Rest(finishedAnswers);
      calls := calls + [FinishedQuery(finished)];
    }

    /** `read(buffer)`: copies the next result's bytes to the front of
        `buffer` and returns their count, or returns -1. */
    method Read(buffer: array<byte>) returns (n: int)
      requires buffer.Length >= CharsetBuffer.CAPACITY
      modifies this, buffer
      ensures var r := First(old(readResults), EndOfStream);
        calls == old(calls) + [ReadCall(r)] && readResults == Rest(old(readResults)) &&
        (r.EndOfStream? ==> n == -1) &&
        (r.Bytes? ==> n == |r.data| && buffer[..n] == r.data)
      ensures readyAnswers == old(readyAnswers) && finishedAnswers == old(finishedAnswers)
    {
      var r := First(readResults, EndOfStream);
      if r.Bytes? {
        forall i | 0 <= i < |r.data| {
          buffer[i] := r.data[i];
        }
        n := |r.data|;
      } else {
        n := -1;
      }
      readResults := Rest(readResults);
      calls := calls + [ReadCall(r)];
    }
  }
}
