/** The local faster-whisper transcriber: its segment loop is
    `Segments.ProcessSegments`, its text rendering
    `Segments.FormatTranscriptText`; what is specific to it is the retry
    policy of `transcribe_with_retry`. The transcriber itself is an oracle:
    `attempt(j)` is what the `j`-th call of `transcribe` does. */
module TranscriberWhisper {
  import opened Segments

  /** One call of `transcriber.transcribe`: it raised, or it returned paragraphs. */
  datatype Attempt = Raised | Returned(paragraphs: seq<Paragraph>)

  /** What `transcribe_with_retry` ends with: a result, a raised
      `TranscriptionError`, or falling off the loop (`None`) when
      `max_retries` is not positive. */
  datatype Outcome = Transcribed(paragraphs: seq<Paragraph>) | GaveUp | NoAttempt

  /** An attempt counts as failed when it raised or returned nothing. */
  predicate Failed(a: Attempt)
  {
    a.Raised? || |a.paragraphs| == 0
  }

  function Pow2(n: nat): nat
  {
    if n == 0 then 1 else 2 * Pow2(n - 1)
  }

  /** The back-off sleeps `2 ** attempt` after the first `n` failed attempts. */
  function Backoff(n: nat): seq<nat>
  {
    seq(n, j requires 0 <= j < n => Pow2(j))
  }

  /** `transcribe_with_retry`: returns the outcome, the number of calls made
      and the sleeps taken between them. */
  method TranscribeWithRetry(attempt: nat -> Attempt, maxRetries: int)
    returns (outcome: Outcome, calls: nat, sleeps: seq<nat>)
    ensures maxRetries <= 0 <==> outcome.NoAttempt?
    ensures outcome.NoAttempt? ==> calls == 0 && sleeps == []
    ensures calls <= if maxRetries < 0 then 0 else maxRetries
    ensures forall j :: 0 <= j < calls - 1 ==> Failed(attempt(j))
    ensures outcome.Transcribed? ==>
      calls >= 1 && !Failed(attempt(calls - 1)) && outcome.paragraphs == attempt(calls - 1).paragraphs &&
      |outcome.paragraphs| > 0 && sleeps == Backoff(calls - 1)
    ensures outcome.GaveUp? ==>
      calls == maxRetries && Failed(attempt(calls - 1)) && sleeps == Backoff(calls - 1)
    ensures outcome.GaveUp? <==> maxRetries > 0 && forall j :: 0 <= j < maxRetries ==> Failed(attempt(j))
  {
    outcome := NoAttempt;
    calls := 0;
    sleeps := [];
    var n := 0;
    while n < maxRetries
      invariant 0 <= n && (maxRetries > 0 ==> n <= maxRetries)
      invariant calls == n && sleeps == Backoff(n)
      invariant forall j :: 0 <= j < n ==> Failed(attempt(j))
      invariant maxRetries > 0 ==> n < maxRetries
      invariant maxRetries <= 0 ==> n == 0
      invariant outcome == NoAttempt
      decreases maxRetries - n
    {
      var result := attempt(n);
      calls := calls + 1;
      if !Failed(result) {
        outcome := Transcribed(result.paragraphs);
        return;
      }
      if n == maxRetries - 1 {
        outcome := GaveUp;
        return;
      }
      sleeps := sleeps + [Pow2(n)];
      n := n + 1;
    }
    assert Backoff(0) == [];
  }
}
