/** GenerationPollingService.RunAsync: fetch the run status, hand every status that came back to
    the callback, stop after a finished one, otherwise wait and go round again, watching the
    cancellation token before each fetch and during each wait. */
module Polling {
  import opened Common
  import opened Completion

  /** What one `GetActiveProjectAsync` call gives: a status or null, or an exception (a
      failure status, a JSON-null body, a transport error), which the loop does not catch. */
  datatype Fetch = Failed | Fetched(response: Option<ActiveProjectResponse>)

  /** How the loop ended. `FetchFailed` is the exception leaving the loop. `ScriptEnded` is the
      model's own bound: the scripted responses ran out while the token was still live. */
  datatype End = CancelledBeforeFetch | SawFinished | CancelledDuringDelay | FetchFailed | ScriptEnded

  /** The statuses a run of fetches hands to the callback: the ones that came back, in order. */
  function Delivered(fetches: seq<Fetch>): (r: seq<ActiveProjectResponse>)
    ensures |r| <= |fetches|
  {
    if fetches == [] then []
    else Delivered(fetches[..|fetches| - 1]) + (match fetches[|fetches| - 1] case Fetched(Some(s)) => [s] case _ => [])
  }

  predicate HasStatus(f: Fetch)
  {
    f.Fetched? && f.response.Some?
  }

  predicate IsFinishedStatus(f: Fetch)
  {
    f.Fetched? && f.response.Some? && f.response.value.isFinished
  }

  /** Statuses that were delivered and came back before any finished one are not finished. */
  lemma {:induction false} DeliveredUnfinished(fetches: seq<Fetch>)
    requires forall k :: 0 <= k < |fetches| ==> !IsFinishedStatus(fetches[k])
    ensures forall j :: 0 <= j < |Delivered(fetches)| ==> !Delivered(fetches)[j].isFinished
  {
    if fetches != [] {
      DeliveredUnfinished(fetches[..|fetches| - 1]);
    }
  }

  /** Every fetch that came back with a status is delivered: the callback count is the number
      of non-null responses. */
  lemma {:induction false} DeliveredCount(fetches: seq<Fetch>)
    ensures |Delivered(fetches)| == |set k | 0 <= k < |fetches| && HasStatus(fetches[k])|
  {
    if fetches != [] {
      var n := |fetches| - 1;
      DeliveredCount(fetches[..n]);
      var before := set k | 0 <= k < n && HasStatus(fetches[..n][k]);
      var all := set k | 0 <= k < |fetches| && HasStatus(fetches[k]);
      assert before == set k | 0 <= k < n && HasStatus(fetches[k]);
      if HasStatus(fetches[n]) {
        assert all == before + {n};
      } else {
        assert all == before;
      }
    }
  }

  /** The loop against scripted fetch results: `responses[k]` is what the k-th fetch gives,
      `cancelledAt(k)` whether the token is cancelled when the loop checks it before the k-th
      fetch, `cancelledWaiting(k)` whether it is cancelled during the wait after that fetch.
      Returns how many fetches were made, the statuses handed to the callback and how the loop
      ended. */
  method RunPolling(responses: seq<Fetch>, cancelledAt: nat -> bool, cancelledWaiting: nat -> bool)
    returns (fetched: nat, delivered: seq<ActiveProjectResponse>, end: End)
    ensures fetched <= |responses|
    ensures delivered == Delivered(responses[..fetched])
    ensures forall k :: 0 <= k < fetched ==> !cancelledAt(k)
    ensures forall k :: 0 <= k < fetched - 1 ==>
              && responses[k].Fetched? && !IsFinishedStatus(responses[k]) && !cancelledWaiting(k)
    ensures end == FetchFailed <==> fetched > 0 && responses[fetched - 1].Failed?
    ensures end == SawFinished <==> fetched > 0 && IsFinishedStatus(responses[fetched - 1])
    ensures end == CancelledDuringDelay <==>
              && fetched > 0 && responses[fetched - 1].Fetched? && !IsFinishedStatus(responses[fetched - 1])
              && cancelledWaiting(fetched - 1)
    ensures end == CancelledBeforeFetch ==> cancelledAt(fetched)
    ensures end == ScriptEnded ==> fetched == |responses| && !cancelledAt(fetched)
  {
    fetched := 0;
    delivered := [];
    while true
      invariant fetched <= |responses|
      invariant delivered == Delivered(responses[..fetched])
      invariant forall k :: 0 <= k < fetched ==>
                  && !cancelledAt(k) && responses[k].Fetched? && !IsFinishedStatus(responses[k]) && !cancelledWaiting(k)
      decreases |responses| - fetched
    {
      if cancelledAt(fetched) {
        return fetched, delivered, CancelledBeforeFetch;
      }
      if fetched == |responses| {
        return fetched, delivered, ScriptEnded;
      }
      var fetch := responses[fetched];
      assert responses[..fetched + 1][..fetched] == responses[..fetched];
      assert Delivered(responses[..fetched + 1])
        == delivered + (match fetch case Fetched(Some(s)) => [s] case _ => []);
      fetched := fetched + 1;
      if fetch.Failed? {
        return fetched, delivered, FetchFailed;
      }
      if fetch.response.Some? {
        delivered := delivered + [fetch.response.value];
        if fetch.response.value.isFinished {
          return fetched, delivered, SawFinished;
        }
      }
      if cancelledWaiting(fetched - 1) {
        return fetched, delivered, CancelledDuringDelay;
      }
    }
  }

  /** At most one status handed to the callback is finished, and only the last one. */
  lemma {:induction false} OnlyLastDeliveredFinished(responses: seq<Fetch>, fetched: nat)
    requires fetched <= |responses|
    requires forall k :: 0 <= k < fetched - 1 ==> !IsFinishedStatus(responses[k])
    ensures var d := Delivered(responses[..fetched]);
            forall j :: 0 <= j < |d| - 1 ==> !d[j].isFinished
  {
    if fetched > 0 {
      var front := responses[..fetched - 1];
      assert responses[..fetched][..fetched - 1] == front;
      assert forall k :: 0 <= k < |front| ==> !IsFinishedStatus(front[k]);
      DeliveredUnfinished(front);
    }
  }

  /** A script whose third fetch returns a finished run: two statuses reach the callback after
      three fetches, the loop stops there. */
  method FinishAfterThreeFetches(running: ActiveProjectResponse, done: ActiveProjectResponse)
    returns (fetched: nat, delivered: seq<ActiveProjectResponse>, end: End)
    requires !running.isFinished && done.isFinished
    ensures fetched == 3 && delivered == [running, done] && end == SawFinished
  {
    var script := [Fetched(Some(running)), Fetched(None), Fetched(Some(done)), Fetched(Some(running))];
    var never: nat -> bool := _ => false;
    fetched, delivered, end := RunPolling(script, never, never);
    assert !never(fetched) && (fetched > 0 ==> !never(fetched - 1));
    assert IsFinishedStatus(script[2]) && !IsFinishedStatus(script[3]);
    assert !IsFinishedStatus(script[0]) && !IsFinishedStatus(script[1]);
    assert fetched == 3;
    var s1, s2, s3 := [Fetched(Some(running))], [Fetched(Some(running)), Fetched(None)],
                      [Fetched(Some(running)), Fetched(None), Fetched(Some(done))];
    assert s1[..0] == [] && s2[..1] == s1 && s3[..2] == s2 && script[..3] == s3;
    assert Delivered(s1) == [running];
    assert Delivered(s2) == [running];
    assert Delivered(s3) == [running, done];
  }

  /** A fetch that throws after a running status ends the loop there: the running status was
      delivered, nothing after the failure is fetched. */
  method FailAfterRunning(running: ActiveProjectResponse, done: ActiveProjectResponse)
    returns (fetched: nat, delivered: seq<ActiveProjectResponse>, end: End)
    requires !running.isFinished
    ensures fetched == 2 && delivered == [running] && end == FetchFailed
  {
    var script := [Fetched(Some(running)), Failed, Fetched(Some(done))];
    var never: nat -> bool := _ => false;
    fetched, delivered, end := RunPolling(script, never, never);
    assert !never(fetched) && (fetched > 0 ==> !never(fetched - 1));
    assert script[0].Fetched? && !IsFinishedStatus(script[0]) && script[1].Failed?;
    assert fetched == 2;
    var s1, s2 := [Fetched(Some(running))], [Fetched(Some(running)), Failed];
    assert s1[..0] == [] && s2[..1] == s1 && script[..2] == s2;
    assert Delivered(s1) == [running];
    assert Delivered(s2) == [running];
  }
}
