/**
 * The session-bound rate limiter attached to the `/slow` route.
 *
 * A request carrying a session may pass at most once per interval of ten seconds,
 * measured from the last request that was let through. The stamp of that request is
 * kept in the session under the key "visitDate"; a denied request never moves it.
 * Times are whole microseconds since the epoch, as the clock reports them.
 */
module TimeFilter {

  /** Session key under which the stamp of the last admitted visit is kept. */
  const VisitDate: string := "visitDate"

  /** The minimum interval between two admitted visits: 10 s in microseconds. */
  const MinInterval: int := 10_000_000

  /** HTTP status of a denied request (429 Too Many Requests). */
  const TooManyRequests: int := 429

  const ErrorResult: string := "error"
  const IntervalMessage: string := "Access interval should be at least 10 seconds"

  /** The JSON body of a denial; the two durations are in microseconds. */
  datatype RateLimitBody = RateLimitBody(result: string, message: string,
                                         elapsedMicros: int, remainingMicros: int)

  /** How one call of the filter completes: the chain continues (`ccb`), or the
      filter answers by itself (`cb`). The two are exclusive by construction. */
  datatype Outcome = Pass | Respond(status: int, body: RateLimitBody)

  /** The new session state and the outcome of one call on a session. */
  datatype StepResult = StepResult(outcome: Outcome, entries: map<string, int>)

  /** `remaining_seconds`: the time still to wait, clamped at zero. */
  function Remaining(elapsed: int): (r: int)
    ensures r >= 0
    ensures elapsed <= MinInterval ==> elapsed + r == MinInterval
    ensures elapsed >= MinInterval ==> r == 0
  {
    if MinInterval - elapsed > 0 then MinInterval - elapsed else 0
  }

  /** One call of the filter on the entries of an existing session at time `now`. */
  function Step(entries: map<string, int>, now: int): (r: StepResult)
    // only "visitDate" may change, and it is present afterwards
    ensures r.entries.Keys == entries.Keys + {VisitDate}
    ensures forall k :: k in entries && k != VisitDate ==> r.entries[k] == entries[k]
    // admission exactly on a first visit or after at least the interval
    ensures r.outcome.Pass? <==>
              (VisitDate !in entries || now - entries[VisitDate] >= MinInterval)
    // an admission moves the window to `now`
    ensures r.outcome.Pass? ==> r.entries[VisitDate] == now
    // a denial leaves the whole session unchanged and reports the wait
    ensures r.outcome.Respond? ==>
              && r.entries == entries
              && r.outcome.status == TooManyRequests
              && r.outcome.body.result == ErrorResult
              && r.outcome.body.message == IntervalMessage
              && r.outcome.body.elapsedMicros == now - entries[VisitDate]
              && r.outcome.body.remainingMicros > 0
              && r.outcome.body.elapsedMicros + r.outcome.body.remainingMicros == MinInterval
  {
    if VisitDate in entries then
      var elapsed := now - entries[VisitDate];
      if elapsed >= MinInterval then
        StepResult(Pass, entries[VisitDate := now])
      else
        StepResult(Respond(TooManyRequests,
                           RateLimitBody(ErrorResult, IntervalMessage, elapsed, Remaining(elapsed))),
                   entries)
    else
      StepResult(Pass, entries[VisitDate := now])
  }

  /** The per-client session store the framework hands to the filter. Other keys may be
      held by other parts of the application; the filter only uses "visitDate". */
  class Session {
    var entries: map<string, int>

    constructor (initial: map<string, int>)
      ensures entries == initial
    {
      entries := initial;
    }
  }

  /** `TimeFilter::doFilter`: the request's session (null when the request has none)
      and the current time decide whether the request is let through. */
  method DoFilter(session: Session?, now: int) returns (outcome: Outcome)
    modifies session
    ensures session == null ==> outcome == Pass
    ensures session != null ==>
              StepResult(outcome, session.entries) == Step(old(session.entries), now)
  {
    if session == null {
      outcome := Pass;
      return;
    }
    if VisitDate in session.entries {
      var last := session.entries[VisitDate];
      var elapsed := now - last;
      if elapsed >= MinInterval {
        session.entries := session.entries[VisitDate := now];
        outcome := Pass;
        return;
      } else {
        var body := RateLimitBody(ErrorResult, IntervalMessage, elapsed, Remaining(elapsed));
        outcome := Respond(TooManyRequests, body);
        return;
      }
    }
    // first visit
    session.entries := session.entries[VisitDate := now];
    outcome := Pass;
  }

  /** A run of calls on one session at the times `times`, in order. */
  datatype Trace = Trace(outcomes: seq<Outcome>, entries: map<string, int>)

  function Run(entries: map<string, int>, times: seq<int>): (t: Trace)
    ensures |t.outcomes| == |times|
    decreases |times|
  {
    if times == [] then Trace([], entries)
    else
      var before := Run(entries, times[..|times| - 1]);
      var s := Step(before.entries, times[|times| - 1]);
      Trace(before.outcomes + [s.outcome], s.entries)
  }

  /** After a run, the stored stamp is no earlier than any admitted call of the run. */
  lemma {:induction false} StampCoversAdmissions(entries: map<string, int>, times: seq<int>)
    ensures forall i :: 0 <= i < |times| && Run(entries, times).outcomes[i].Pass? ==>
              VisitDate in Run(entries, times).entries &&
              Run(entries, times).entries[VisitDate] >= times[i]
    decreases |times|
  {
    if times != [] {
      var n := |times| - 1;
      var prefix := times[..n];
      StampCoversAdmissions(entries, prefix);
      var before := Run(entries, prefix);
      var s := Step(before.entries, times[n]);
      forall i | 0 <= i < |times| && Run(entries, times).outcomes[i].Pass?
        ensures VisitDate in Run(entries, times).entries &&
                Run(entries, times).entries[VisitDate] >= times[i]
      {
        if i < n {
          assert before.outcomes[i].Pass?;
          assert prefix[i] == times[i];
          if s.outcome.Respond? {
            assert s.entries == before.entries;
          } else {
            assert times[n] - before.entries[VisitDate] >= MinInterval;
          }
        }
      }
    }
  }

  /** Over any run, any two admitted calls are at least the interval apart, even when the
      clock steps back: denials never shorten the window. */
  lemma {:induction false} AdmissionsSpaced(entries: map<string, int>, times: seq<int>, i: int, j: int)
    requires 0 <= i < j < |times|
    requires Run(entries, times).outcomes[i].Pass? && Run(entries, times).outcomes[j].Pass?
    ensures times[j] - times[i] >= MinInterval
    decreases |times|
  {
    var n := |times| - 1;
    var prefix := times[..n];
    var before := Run(entries, prefix);
    if j < n {
      assert before.outcomes[i].Pass? && before.outcomes[j].Pass?;
      AdmissionsSpaced(entries, prefix, i, j);
      assert prefix[i] == times[i] && prefix[j] == times[j];
    } else {
      StampCoversAdmissions(entries, prefix);
      assert before.outcomes[i].Pass?;
      assert prefix[i] == times[i];
      assert VisitDate in before.entries && before.entries[VisitDate] >= times[i];
    }
  }

  /** Over any run, entries other than "visitDate" keep their values. */
  lemma {:induction false} RunTouchesOnlyVisitDate(entries: map<string, int>, times: seq<int>, k: string)
    requires k in entries && k != VisitDate
    ensures k in Run(entries, times).entries && Run(entries, times).entries[k] == entries[k]
    decreases |times|
  {
    if times != [] {
      RunTouchesOnlyVisitDate(entries, times[..|times| - 1], k);
    }
  }

  /** Two visits five seconds apart: the second one is denied with 5 s elapsed and
      5 s remaining, and the stamp stays at the first visit. */
  lemma FiveSecondsApart(t: int)
    ensures Run(map[], [t, t + 5_000_000]).outcomes ==
              [Pass, Respond(TooManyRequests,
                             RateLimitBody(ErrorResult, IntervalMessage, 5_000_000, 5_000_000))]
    ensures Run(map[], [t, t + 5_000_000]).entries == map[VisitDate := t]
  {
    var first := Run(map[], [t]);
    assert [t, t + 5_000_000][..1] == [t];
    assert [t][..0] == [];
    assert Run(map[], []) == Trace([], map[]);
    assert Step(map[], t) == StepResult(Pass, map[VisitDate := t]);
    assert first == Trace([Pass], map[VisitDate := t]);
    assert Step(first.entries, t + 5_000_000).outcome.Respond?;
  }

  /** Two visits eleven seconds apart both pass, and the stamp advances to the second. */
  lemma ElevenSecondsApart(t: int)
    ensures Run(map[], [t, t + 11_000_000]).outcomes == [Pass, Pass]
    ensures Run(map[], [t, t + 11_000_000]).entries == map[VisitDate := t + 11_000_000]
  {
    var first := Run(map[], [t]);
    assert [t, t + 11_000_000][..1] == [t];
    assert [t][..0] == [];
    assert Run(map[], []) == Trace([], map[]);
    assert Step(map[], t) == StepResult(Pass, map[VisitDate := t]);
    assert first == Trace([Pass], map[VisitDate := t]);
    assert Step(first.entries, t + 11_000_000).entries == map[VisitDate := t + 11_000_000];
  }
}
