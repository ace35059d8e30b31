/**
 * The two train-search tools of agents/tools/search_srt.py, whose older copy in
 * agents/tools.py is identical line for line (lines 40-79 there are lines 91-130 here).
 *
 * RequestTrainSearch: one POST that starts a search; its outcome becomes text.
 * GetTrainSearchResults: poll the result of a search at most MaxAttempts times,
 * sleeping PollDelaySeconds after each reply that is not terminal.
 *
 * The HTTP calls are replaced by their outcomes: `replies(j)` is what the (j+1)-th
 * status request yields. Sleeping is replaced by a counter.
 */
module TrainSearch {
  import opened Wrappers
  import opened Remote

  /** `range(8)`: the number of status requests the poll loop may make. */
  const MaxAttempts: nat := 8
  /** `time.sleep(5)` after every non-terminal reply. */
  const PollDelaySeconds: nat := 5

  // The longer texts are written as two literals so that the verifier can look at their first characters.
  const StartedPrefix := "Search requested successfully. " + "Your job ID is: "
  const StartErrorPrefix := "Error requesting train search: "

  const MissingJobIdText := "Error: job_id is required."
  const CompletedPrefix := "Search completed. Train information: "
  const FailedPrefix := "Search failed. Error: "
  const ErroredPrefix := "Error getting search results: "
  const TimeoutText := "Search timed out. " + "The result is still pending after 40 seconds."

  // ---------------------------------------------------------------------------
  // RequestTrainSearchTool._run

  /**
   * The text returned for the outcome of the search-start request. Every
   * exception inside the `try`, including a reply without "result_id", becomes
   * the error text, so the tool never raises.
   */
  function RequestTrainSearch(reply: Exchange): (text: string)
    ensures StartedPrefix <= text || StartErrorPrefix <= text
  {
    match reply
    case Raised(e) => StartErrorPrefix + e
    case Json(body) =>
      if "result_id" in body then StartedPrefix + Render(body["result_id"])
      else StartErrorPrefix + KeyErrorText("result_id")
  }

  // ---------------------------------------------------------------------------
  // GetTrainSearchResultsTool._run

  /** The distinct results of the poll tool; `OutcomeText` gives the text of each. */
  datatype Outcome =
    | MissingJobId
    | Completed(data: string)
    | Failed(data: string)
    | Errored(message: string)
    | TimedOut

  function OutcomeText(o: Outcome): string {
    match o
    case MissingJobId => MissingJobIdText
    case Completed(data) => CompletedPrefix + data
    case Failed(data) => FailedPrefix + data
    case Errored(message) => ErroredPrefix + message
    case TimedOut => TimeoutText
  }

  /** `if not job_id`: the argument is absent (None) or the empty string. */
  predicate IsMissing(jobId: Option<string>) {
    jobId.None? || jobId.value == ""
  }

  /** What one pass of the loop body does with a reply: return an outcome, or sleep and go on. */
  datatype Verdict = Stop(outcome: Outcome) | Pending

  /**
   * One pass of the loop body. A missing "status" key, and a missing "data" key
   * once the status is terminal, raise KeyError inside the `try` like any other
   * exception.
   */
  function Judge(reply: Exchange): (v: Verdict)
    ensures v != Stop(TimedOut) && v != Stop(MissingJobId)
  {
    match reply
    case Raised(e) => Stop(Errored(e))
    case Json(body) =>
      if "status" !in body then Stop(Errored(KeyErrorText("status")))
      else if body["status"] == Str("COMPLETED") then
        if "data" in body then Stop(Completed(Render(body["data"])))
        else Stop(Errored(KeyErrorText("data")))
      else if body["status"] == Str("ERROR") then
        if "data" in body then Stop(Failed(Render(body["data"])))
        else Stop(Errored(KeyErrorText("data")))
      else Pending
  }

  /** The result of a call to the poll tool together with the requests it made and the sleeps it took. */
  datatype Run = Run(outcome: Outcome, requests: nat, sleeps: nat)

  /**
   * The loop, as a function, entered before request number `i` with `i` requests
   * made and `i` sleeps taken.
   */
  function PollFrom(replies: nat -> Exchange, i: nat): (r: Run)
    requires i <= MaxAttempts
    ensures i <= r.sleeps <= r.requests <= MaxAttempts
    ensures r.outcome == TimedOut <==> r.sleeps == MaxAttempts
    ensures r.requests == if r.outcome == TimedOut then r.sleeps else r.sleeps + 1
    ensures r.outcome != MissingJobId
    decreases MaxAttempts - i
  {
    if i == MaxAttempts then Run(TimedOut, i, i)
    else
      match Judge(replies(i))
      case Stop(o) => Run(o, i + 1, i)
      case Pending => PollFrom(replies, i + 1)
  }

  /** The whole tool, as a function: the job-id check, then the loop. */
  function Poll(jobId: Option<string>, replies: nat -> Exchange): (r: Run)
    ensures r.requests == 0 <==> IsMissing(jobId)
    ensures r.outcome == MissingJobId <==> IsMissing(jobId)
    ensures r.requests <= MaxAttempts && r.sleeps <= r.requests
  {
    if IsMissing(jobId) then Run(MissingJobId, 0, 0) else PollFrom(replies, 0)
  }

  /** The poll tool: returns its text, and how many requests it made and sleeps it took. */
  method GetTrainSearchResults(jobId: Option<string>, replies: nat -> Exchange)
    returns (text: string, requests: nat, sleeps: nat)
    ensures requests <= MaxAttempts
    ensures IsMissing(jobId) <==> requests == 0
    ensures IsMissing(jobId) ==> text == "Error: job_id is required."
    ensures var r := Poll(jobId, replies);
            text == OutcomeText(r.outcome) && requests == r.requests && sleeps == r.sleeps
  {
    if IsMissing(jobId) {
      return MissingJobIdText, 0, 0;
    }
    requests, sleeps := 0, 0;
    for attempt := 0 to MaxAttempts
      invariant requests == attempt && sleeps == attempt
      invariant PollFrom(replies, attempt) == Poll(jobId, replies)
    {
      var reply := replies(attempt);
      requests := requests + 1;
      var verdict := Judge(reply);
      if verdict.Stop? {
        return OutcomeText(verdict.outcome), requests, sleeps;
      }
      sleeps := sleeps + 1;
    }
    text := TimeoutText;
  }
}
