/**
 * Properties of the train-search tools, stated against reference definitions of
 * which replies keep the poll loop going and which raise inside its `try`.
 */
module TrainSearchProperties {
  import opened Wrappers
  import opened Remote
  import opened TrainSearch

  // ---------------------------------------------------------------------------
  // Reference definitions

  /** A reply that is neither terminal nor raising: a dictionary whose "status" is neither "COMPLETED" nor "ERROR". */
  predicate IsPendingReply(reply: Exchange) {
    reply.Json? && "status" in reply.body
    && reply.body["status"] != Str("COMPLETED") && reply.body["status"] != Str("ERROR")
  }

  /** The replies to requests 1 .. n were all pending. */
  predicate AllPendingBefore(replies: nat -> Exchange, n: nat) {
    forall j :: 0 <= j < n ==> IsPendingReply(replies(j))
  }

  /** The loop body raises with text `e` on this reply: the request itself failed, or a key it reads is missing. */
  predicate RaisesWith(reply: Exchange, e: string) {
    match reply
    case Raised(m) => e == m
    case Json(body) =>
      ("status" !in body && e == "'status'")
      || ("status" in body && (body["status"] == Str("COMPLETED") || body["status"] == Str("ERROR"))
          && "data" !in body && e == "'data'")
  }

  /** Number of pending replies among the first n. */
  function CountPending(replies: nat -> Exchange, n: nat): nat {
    if n == 0 then 0 else CountPending(replies, n - 1) + (if IsPendingReply(replies(n - 1)) then 1 else 0)
  }

  /** How a caller can tell the poll tool's results apart from their text alone. */
  function DecodeOutcome(text: string): Option<Outcome> {
    if text == MissingJobIdText then Some(MissingJobId)
    else if text == TimeoutText then Some(TimedOut)
    else if CompletedPrefix <= text then Some(Completed(text[|CompletedPrefix|..]))
    else if FailedPrefix <= text then Some(Failed(text[|FailedPrefix|..]))
    else if ErroredPrefix <= text then Some(Errored(text[|ErroredPrefix|..]))
    else None
  }

  /** How a caller reads the job id back from the search-start text. */
  function JobIdOf(text: string): Option<string> {
    if StartedPrefix <= text then Some(text[|StartedPrefix|..]) else None
  }

  // ---------------------------------------------------------------------------
  // Search start

  /** The start text carries a job id exactly when the reply was a dictionary with "result_id", and then it is that id. */
  lemma RequestJobIdRoundTrip(reply: Exchange)
    ensures JobIdOf(RequestTrainSearch(reply))
            == if reply.Json? && "result_id" in reply.body then Some(Render(reply.body["result_id"])) else None
  {
    var text := RequestTrainSearch(reply);
    if reply.Json? && "result_id" in reply.body {
      assert text == StartedPrefix + Render(reply.body["result_id"]);
      assert text[|StartedPrefix|..] == Render(reply.body["result_id"]);
    } else {
      TextMarks();
      assert text[0] == 'E' && StartedPrefix[0] == 'S';
    }
  }

  /** A failed request, or a reply without "result_id", gives the error text with the exception's message. */
  lemma RequestErrorText(reply: Exchange, e: string)
    requires reply == Raised(e) || (reply.Json? && "result_id" !in reply.body && e == "'result_id'")
    ensures RequestTrainSearch(reply) == "Error requesting train search: " + e
    ensures JobIdOf(RequestTrainSearch(reply)) == None
  {
    RequestJobIdRoundTrip(reply);
  }

  // ---------------------------------------------------------------------------
  // Poll loop

  lemma JudgePending(reply: Exchange)
    ensures Judge(reply) == Pending <==> IsPendingReply(reply)
  {
  }

  /** A reply ends the loop with an exception's text exactly when the loop body raises on it. */
  lemma JudgeRaises(reply: Exchange, e: string)
    ensures Judge(reply) == Stop(Errored(e)) <==> RaisesWith(reply, e)
  {
    assert KeyErrorText("status") == "'status'";
    assert KeyErrorText("data") == "'data'";
  }

  /** Pending replies only move the loop on: entering at i or at k gives the same run. */
  lemma {:induction false} SkipPending(replies: nat -> Exchange, i: nat, k: nat)
    requires i <= k <= MaxAttempts
    requires forall j :: i <= j < k ==> IsPendingReply(replies(j))
    ensures PollFrom(replies, i) == PollFrom(replies, k)
    decreases k - i
  {
    if i < k {
      JudgePending(replies(i));
      SkipPending(replies, i + 1, k);
    }
  }

  /** The first reply that is not pending decides the result: k requests, k - 1 sleeps, nothing after it. */
  lemma StopAt(jobId: Option<string>, replies: nat -> Exchange, k: nat)
    requires !IsMissing(jobId) && 1 <= k <= MaxAttempts
    requires AllPendingBefore(replies, k - 1) && !IsPendingReply(replies(k - 1))
    ensures Judge(replies(k - 1)).Stop?
    ensures Poll(jobId, replies) == Run(Judge(replies(k - 1)).outcome, k, k - 1)
  {
    SkipPending(replies, 0, k - 1);
    JudgePending(replies(k - 1));
  }

  /** "COMPLETED" on attempt k after pending replies: the train information, k requests, no sleep after the k-th. */
  lemma CompletedAt(jobId: Option<string>, replies: nat -> Exchange, k: nat, data: Value)
    requires !IsMissing(jobId) && 1 <= k <= MaxAttempts && AllPendingBefore(replies, k - 1)
    requires replies(k - 1).Json? && "status" in replies(k - 1).body && replies(k - 1).body["status"] == Str("COMPLETED")
    requires "data" in replies(k - 1).body && replies(k - 1).body["data"] == data
    ensures var r := Poll(jobId, replies);
            OutcomeText(r.outcome) == "Search completed. Train information: " + Render(data)
            && r.requests == k && r.sleeps == k - 1
  {
    StopAt(jobId, replies, k);
  }

  /** "ERROR" on attempt k after pending replies: the failure text with the reply's data, k requests. */
  lemma FailedAt(jobId: Option<string>, replies: nat -> Exchange, k: nat, data: Value)
    requires !IsMissing(jobId) && 1 <= k <= MaxAttempts && AllPendingBefore(replies, k - 1)
    requires replies(k - 1).Json? && "status" in replies(k - 1).body && replies(k - 1).body["status"] == Str("ERROR")
    requires "data" in replies(k - 1).body && replies(k - 1).body["data"] == data
    ensures var r := Poll(jobId, replies);
            OutcomeText(r.outcome) == "Search failed. Error: " + Render(data)
            && r.requests == k && r.sleeps == k - 1
  {
    StopAt(jobId, replies, k);
  }

  /** An exception on attempt k ends the loop with its message; no request after the k-th is made. */
  lemma RaisedAt(jobId: Option<string>, replies: nat -> Exchange, k: nat, e: string)
    requires !IsMissing(jobId) && 1 <= k <= MaxAttempts && AllPendingBefore(replies, k - 1)
    requires RaisesWith(replies(k - 1), e)
    ensures var r := Poll(jobId, replies);
            OutcomeText(r.outcome) == "Error getting search results: " + e
            && r.requests == k && r.sleeps == k - 1
  {
    StopAt(jobId, replies, k);
  }

  /** The first index whose reply is not pending, or MaxAttempts when there is none. */
  lemma {:induction false} FirstNonPending(replies: nat -> Exchange, i: nat) returns (k: nat)
    requires i <= MaxAttempts && AllPendingBefore(replies, i)
    ensures i <= k <= MaxAttempts && AllPendingBefore(replies, k)
    ensures k < MaxAttempts ==> !IsPendingReply(replies(k))
    decreases MaxAttempts - i
  {
    if i == MaxAttempts || !IsPendingReply(replies(i)) {
      k := i;
    } else {
      k := FirstNonPending(replies, i + 1);
    }
  }

  /** The tool times out exactly when the job id is present and all MaxAttempts replies are pending. */
  lemma TimedOutIff(jobId: Option<string>, replies: nat -> Exchange)
    ensures Poll(jobId, replies).outcome == TimedOut
            <==> !IsMissing(jobId) && AllPendingBefore(replies, MaxAttempts)
  {
    if !IsMissing(jobId) {
      var k := FirstNonPending(replies, 0);
      if k < MaxAttempts {
        StopAt(jobId, replies, k + 1);
      } else {
        SkipPending(replies, 0, MaxAttempts);
      }
    }
  }

  /** Eight pending replies: the timeout text after exactly 8 requests and 8 sleeps of 5 seconds, 40 in all. */
  lemma TimeoutAfterEightPending(jobId: Option<string>, replies: nat -> Exchange)
    requires !IsMissing(jobId) && AllPendingBefore(replies, MaxAttempts)
    ensures var r := Poll(jobId, replies);
            OutcomeText(r.outcome) == TimeoutText
            && r.requests == 8 && r.sleeps == 8 && r.sleeps * PollDelaySeconds == 40
  {
    SkipPending(replies, 0, MaxAttempts);
  }

  lemma {:induction false} CountAllPending(replies: nat -> Exchange, n: nat)
    requires AllPendingBefore(replies, n)
    ensures CountPending(replies, n) == n
  {
    if n > 0 {
      CountAllPending(replies, n - 1);
    }
  }

  /** Every sleep follows a pending reply and every pending reply is followed by a sleep. */
  lemma SleepsCountPending(jobId: Option<string>, replies: nat -> Exchange)
    ensures var r := Poll(jobId, replies);
            r.sleeps == CountPending(replies, r.requests)
  {
    if !IsMissing(jobId) {
      var k := FirstNonPending(replies, 0);
      CountAllPending(replies, k);
      if k < MaxAttempts {
        StopAt(jobId, replies, k + 1);
      } else {
        SkipPending(replies, 0, MaxAttempts);
      }
    }
  }

  /** The characters at which the result texts first differ. */
  lemma TextMarks()
    ensures StartedPrefix[0] == 'S' && StartErrorPrefix[0] == 'E'
    ensures MissingJobIdText[0] == 'E' && MissingJobIdText[5] == ':'
    ensures TimeoutText[0] == 'S' && TimeoutText[7] == 't'
    ensures CompletedPrefix[0] == 'S' && CompletedPrefix[7] == 'c'
    ensures FailedPrefix[0] == 'S' && FailedPrefix[7] == 'f'
    ensures ErroredPrefix[0] == 'E' && ErroredPrefix[5] == ' '
  {
  }

  /** The five result texts are pairwise distinguishable, and each gives back the data or message it embeds. */
  lemma OutcomeTextUnambiguous(o: Outcome)
    ensures DecodeOutcome(OutcomeText(o)) == Some(o)
  {
    var text := OutcomeText(o);
    TextMarks();
    match o
    case MissingJobId =>
    case TimedOut =>
    case Completed(data) =>
      assert text[..|CompletedPrefix|] == CompletedPrefix;
      assert text[0] == 'S' && MissingJobIdText[0] == 'E';
      assert text[7] == 'c' && TimeoutText[7] == 't';
      assert text[|CompletedPrefix|..] == data;
    case Failed(data) =>
      assert text[..|FailedPrefix|] == FailedPrefix;
      assert text[0] == 'S' && MissingJobIdText[0] == 'E';
      assert text[7] == 'f' && TimeoutText[7] == 't' && CompletedPrefix[7] == 'c';
      assert text[|FailedPrefix|..] == data;
    case Errored(message) =>
      assert text[..|ErroredPrefix|] == ErroredPrefix;
      assert text[5] == ' ' && MissingJobIdText[5] == ':';
      assert text[0] == 'E' && TimeoutText[0] == 'S' && CompletedPrefix[0] == 'S' && FailedPrefix[0] == 'S';
      assert text[|ErroredPrefix|..] == message;
  }

  // ---------------------------------------------------------------------------
  // Two concrete runs

  /** A remote search that is pending twice and then completes with an empty train list. */
  function CompletesOnThird(j: nat): Exchange {
    if j < 2 then Json(map["status" := Str("PENDING")])
    else Json(map["status" := Str("COMPLETED"), "data" := Other("[]")])
  }

  /** [PENDING, PENDING, COMPLETED]: the train information after exactly 3 requests, with no sleep after the 3rd. */
  lemma ThirdReplyCompletes()
    ensures Poll(Some("job-1"), CompletesOnThird) == Run(Completed("[]"), 3, 2)
  {
    assert AllPendingBefore(CompletesOnThird, 2) by {
      forall j | 0 <= j < 2 ensures IsPendingReply(CompletesOnThird(j)) {
        assert CompletesOnThird(j) == Json(map["status" := Str("PENDING")]);
      }
    }
    StopAt(Some("job-1"), CompletesOnThird, 3);
  }

  /** A remote search that is pending once, after which the connection fails. */
  function FailsOnSecond(j: nat): Exchange {
    if j == 0 then Json(map["status" := Str("RUNNING")]) else Raised("Connection refused")
  }

  /** A transport error on attempt 2 is returned at once: attempts 3 to 8 are never made. */
  lemma TransportErrorSecond()
    ensures Poll(Some("job-1"), FailsOnSecond).requests == 2
    ensures OutcomeText(Poll(Some("job-1"), FailsOnSecond).outcome)
            == "Error getting search results: Connection refused"
  {
    assert AllPendingBefore(FailsOnSecond, 1) by {
      assert FailsOnSecond(0) == Json(map["status" := Str("RUNNING")]);
    }
    StopAt(Some("job-1"), FailsOnSecond, 2);
  }
}
