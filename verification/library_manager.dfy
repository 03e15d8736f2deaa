/** The library refresh on the destination server: wait for scans already
    running, trigger a scan of every library, then poll the server's
    activity list until no library scan is left. The clock is injected:
    a poll issued at elapsed time `t` (milliseconds since the wait began)
    gets the activity list the server reports at that moment and takes
    some time; between polls the loop sleeps a fixed interval. */
module LibraryManager {
  import opened Wrappers
  import opened Catalog
  import PlexClient

  /** One poll of GetActivities: its answer and how long it took. */
  datatype Probe = Probe(answer: Result<seq<Activity>>, took: nat)

  /** The server's answers, by the elapsed time at which they are asked. */
  type Poll = nat -> Probe

  const ExistingLimit: nat := 300_000   // 5 minutes
  const ExistingSleep: nat := 10_000    // 10 seconds
  const AllLimit: nat := 600_000        // 10 minutes
  const AllSleep: nat := 5_000          // 5 seconds

  /** What one status check found. */
  datatype Status = Running | Idle | Unknown(error: string)

  /** IsLibraryScanInProgress's answer read as a status. */
  function Classify(answer: Result<seq<Activity>>): (r: Status)
    ensures r.Unknown? <==> answer.Err?
    ensures r == Idle <==> answer.Ok? && forall a :: a in answer.value ==> a.kind != PlexClient.ScanKind
  {
    match PlexClient.IsLibraryScanInProgress(answer)
    case Err(e) => Unknown(e)
    case Ok(s) => if s.inProgress then Running else Idle
  }

  /** A check as the wait loop sees it: its status and its duration. */
  datatype Seen = Seen(status: Status, took: nat)

  /** The server's answers as statuses, by elapsed time. */
  function Observe(poll: Poll): nat -> Seen {
    (t: nat) => Seen(Classify(poll(t).answer), poll(t).took)
  }

  /** How a wait loop ended. */
  datatype End = Clear | PollFailed | TimedOut

  /** The end of a wait loop and the elapsed times of its polls. */
  datatype Wait = Wait(end: End, polls: seq<nat>)

  /** Every poll time lies in [lo, hi]. */
  predicate Within(polls: seq<nat>, lo: nat, hi: nat) {
    forall i :: 0 <= i < |polls| ==> lo <= polls[i] <= hi
  }

  /** Any two polls are at least `gap` apart, in increasing order. */
  predicate Spaced(polls: seq<nat>, gap: nat) {
    forall i, j :: 0 <= i < j < |polls| ==> polls[j] >= polls[i] + gap
  }

  /** A status that keeps the loop going: scans running, or a failed check
      when failures are retried. */
  predicate Busy(status: Status, stopOnError: bool) {
    status != Idle && (stopOnError ==> !status.Unknown?)
  }

  /** Every poll but the last kept the loop going. */
  predicate BusyBeforeLast(see: nat -> Seen, polls: seq<nat>, stopOnError: bool) {
    forall i :: 0 <= i < |polls| - 1 ==> Busy(see(polls[i]).status, stopOnError)
  }

  /** A busy poll at `t` followed by the polls of the next round. */
  lemma PrependPoll(see: nat -> Seen, t: nat, next: nat, limit: nat, sleep: nat, stopOnError: bool, rest: seq<nat>)
    requires t <= limit && next >= t + sleep && Busy(see(t).status, stopOnError)
    requires Within(rest, next, limit) && Spaced(rest, sleep) && BusyBeforeLast(see, rest, stopOnError)
    ensures Within([t] + rest, t, limit) && Spaced([t] + rest, sleep) && BusyBeforeLast(see, [t] + rest, stopOnError)
  {
    var polls := [t] + rest;
    forall j | 0 < j < |polls|
      ensures polls[j] == rest[j - 1]
    {
    }
  }

  /** The wait loop shared by both waits: stop on an idle check, on a
      failed check when `stopOnError`, or once the elapsed time exceeds
      `limit`. */
  function WaitLoop(see: nat -> Seen, limit: nat, sleep: nat, stopOnError: bool, t: nat): (w: Wait)
    requires sleep > 0
    ensures |w.polls| == 0 <==> t > limit
    ensures |w.polls| > 0 ==> w.polls[0] == t
    ensures Within(w.polls, t, limit) && Spaced(w.polls, sleep)
    ensures BusyBeforeLast(see, w.polls, stopOnError)
    ensures w.end == Clear <==> |w.polls| > 0 && see(w.polls[|w.polls| - 1]).status == Idle
    ensures w.end == PollFailed <==> stopOnError && |w.polls| > 0 && see(w.polls[|w.polls| - 1]).status.Unknown?
    decreases limit + 1 - t
  {
    if t > limit then Wait(TimedOut, [])
    else
      var seen := see(t);
      if seen.status.Unknown? && stopOnError then Wait(PollFailed, [t])
      else if seen.status == Idle then Wait(Clear, [t])
      else
        var next := t + seen.took + sleep;
        var rest := WaitLoop(see, limit, sleep, stopOnError, next);
        PrependPoll(see, t, next, limit, sleep, stopOnError, rest.polls);
        var polls := [t] + rest.polls;
        assert |rest.polls| > 0 ==> polls[|polls| - 1] == rest.polls[|rest.polls| - 1];
        Wait(rest.end, polls)
  }

  /** Spaced polls span at least one gap per step. */
  lemma {:induction false} SpacedSpan(polls: seq<nat>, gap: nat)
    requires |polls| > 0 && Spaced(polls, gap)
    ensures (|polls| - 1) * gap <= polls[|polls| - 1] - polls[0]
    decreases |polls|
  {
    if |polls| > 1 {
      var init := polls[..|polls| - 1];
      assert Spaced(init, gap);
      SpacedSpan(init, gap);
      assert init[|init| - 1] == polls[|polls| - 2] && init[0] == polls[0];
      MulStep(|polls| - 2, gap);
    }
  }

  /** Polls are at least `sleep` apart, so a loop fits a bounded number of
      them in its time limit. */
  lemma WaitLoopPollBound(see: nat -> Seen, limit: nat, sleep: nat, stopOnError: bool, t: nat)
    requires sleep > 0
    ensures var w := WaitLoop(see, limit, sleep, stopOnError, t);
            |w.polls| > 0 ==> (|w.polls| - 1) * sleep <= limit - t
  {
    var w := WaitLoop(see, limit, sleep, stopOnError, t);
    if |w.polls| > 0 {
      SpacedSpan(w.polls, sleep);
    }
  }

  lemma MulStep(n: nat, d: nat)
    ensures (n + 1) * d == n * d + d
  {
  }

  /** What waiting for already running scans did. */
  datatype ExistingWait = ExistingWait(result: Outcome<string>, loop: Option<Wait>)

  /** waitForExistingScansComplete: only the first status check can fail;
      once it reports running scans, the loop ends without error on a quiet
      poll, a failed poll or after five minutes. */
  function WaitForExistingScans(first: Result<seq<Activity>>, poll: Poll): (r: ExistingWait)
    ensures r.result.Fail? <==> first.Err?
    ensures r.loop.Some? <==> first.Ok? && PlexClient.IsLibraryScanInProgress(first).value.inProgress
    ensures r.loop.Some? ==> r.loop.value == WaitLoop(Observe(poll), ExistingLimit, ExistingSleep, true, 0)
    ensures r.loop.Some? ==> |r.loop.value.polls| <= 31
  {
    match PlexClient.IsLibraryScanInProgress(first)
    case Err(e) => ExistingWait(Fail("failed to check existing scan status: " + e), None)
    case Ok(status) =>
      if !status.inProgress then ExistingWait(Pass, None)
      else
        WaitLoopPollBound(Observe(poll), ExistingLimit, ExistingSleep, true, 0);
        ExistingWait(Pass, Some(WaitLoop(Observe(poll), ExistingLimit, ExistingSleep, true, 0)))
  }

  /** waitForAllScansComplete: poll failures are retried; the wait succeeds
      at the first quiet poll and fails once ten minutes have passed. */
  function WaitForAllScans(poll: Poll): (r: (Outcome<string>, Wait))
    ensures r.1 == WaitLoop(Observe(poll), AllLimit, AllSleep, false, 0)
    ensures r.0.Pass? <==> r.1.end == Clear
    ensures r.1.end != PollFailed
    ensures 1 <= |r.1.polls| <= 121
  {
    var w := WaitLoop(Observe(poll), AllLimit, AllSleep, false, 0);
    WaitLoopPollBound(Observe(poll), AllLimit, AllSleep, false, 0);
    if w.end == Clear then (Pass, w)
    else (Fail("library scan monitoring timed out after 10m0s"), w)
  }

  /** A running library scan keeps the final wait going whichever library
      it belongs to: the libraries that were triggered play no part. */
  lemma AnyScanKeepsWaiting(poll: Poll, t: nat, a: Activity)
    requires poll(t).answer.Ok? && a in poll(t).answer.value && a.kind == PlexClient.ScanKind
    ensures Observe(poll)(t).status == Running
  {
  }

  /** The scan triggers: libraries whose trigger succeeded, in order. */
  function Triggered(libs: seq<Library>, trigger: string -> Outcome<string>): (r: seq<Library>)
    ensures forall l :: l in r <==> l in libs && trigger(l.key).Pass?
    ensures |r| <= |libs|
  {
    if |libs| == 0 then []
    else
      var rest := Triggered(libs[1..], trigger);
      assert forall l :: l in libs <==> l == libs[0] || l in libs[1..];
      if trigger(libs[0].key).Pass? then [libs[0]] + rest else rest
  }

  /** What one refresh did. */
  datatype Refresh = Refresh(result: Outcome<string>, existing: ExistingWait, triggered: seq<Library>, wait: Option<Wait>)

  /** TriggerRefreshAndWait. */
  function TriggerRefreshAndWait(first: Result<seq<Activity>>, existingPoll: Poll, libraries: Result<seq<Library>>,
                                 trigger: string -> Outcome<string>, poll: Poll): (r: Refresh)
    ensures r.existing == WaitForExistingScans(first, existingPoll)
    ensures libraries.Err? ==> r.result.Fail? && r.triggered == [] && r.wait.None?
    ensures libraries.Ok? ==> r.triggered == Triggered(libraries.value, trigger)
    // no successful trigger: an error, and no waiting
    ensures libraries.Ok? && r.triggered == [] ==> r.result.Fail? && r.wait.None?
    // otherwise the outcome is the final wait's
    ensures libraries.Ok? && r.triggered != [] ==>
              r.wait == Some(WaitForAllScans(poll).1) && r.result == WaitForAllScans(poll).0
  {
    var existing := WaitForExistingScans(first, existingPoll);
    match libraries
    case Err(e) => Refresh(Fail("failed to get destination libraries: " + e), existing, [], None)
    case Ok(libs) =>
      var triggered := Triggered(libs, trigger);
      if |triggered| == 0 then Refresh(Fail("failed to trigger any library scans"), existing, triggered, None)
      else
        var (result, w) := WaitForAllScans(poll);
        Refresh(result, existing, triggered, Some(w))
  }

  /** The wait for already running scans never decides the refresh. */
  lemma ExistingWaitNeverFatal(first1: Result<seq<Activity>>, poll1: Poll, first2: Result<seq<Activity>>, poll2: Poll,
                               libraries: Result<seq<Library>>, trigger: string -> Outcome<string>, poll: Poll)
    ensures TriggerRefreshAndWait(first1, poll1, libraries, trigger, poll).result
         == TriggerRefreshAndWait(first2, poll2, libraries, trigger, poll).result
  {
  }

  /** As long as one scan was triggered, which ones were does not change the
      outcome. */
  lemma OutcomeIgnoresWhichTriggered(first: Result<seq<Activity>>, existingPoll: Poll, libs: seq<Library>,
                                     t1: string -> Outcome<string>, t2: string -> Outcome<string>, poll: Poll)
    requires Triggered(libs, t1) != [] && Triggered(libs, t2) != []
    ensures TriggerRefreshAndWait(first, existingPoll, Ok(libs), t1, poll).result
         == TriggerRefreshAndWait(first, existingPoll, Ok(libs), t2, poll).result
  {
  }
}
