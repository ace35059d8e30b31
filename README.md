# Train-search tools of crewai-train-manage, modelled in Dafny

The repository answers travel questions with a crew of LLM agents. The agents call
tools to start a train-seat search on an external service, to poll that service until
the search is done, and to look up the weather. This project models the three tools
that hold local logic and proves what they return:

- **`RequestTrainSearchTool._run`** starts a search. It makes one POST and turns the
  outcome into text: either the job-ID sentence with `result_id`, or an error sentence.
  It never raises. Modelled as `TrainSearch.RequestTrainSearch`.
- **`GetTrainSearchResultsTool._run`** polls the search. It rejects a missing or empty
  job id. It then makes up to 8 status requests and returns at once on `COMPLETED`,
  on `ERROR` or on any exception. After every other reply it sleeps 5 seconds. When the
  budget is spent it returns a fixed timeout sentence. Modelled as the method
  `TrainSearch.GetTrainSearchResults`, a `for` loop proved against the functions
  `TrainSearch.PollFrom` and `TrainSearch.Poll`.
- **`WeatherSearchTool._run`** splits its argument `"city,date"` on `,` and unpacks it
  into two names, then builds a fixed placeholder sentence from the unstripped pieces.
  Modelled as `Weather.ParseArgument` and `Weather.WeatherReport`.

`agents/tools.py` is an older copy of the two search tools in
`agents/tools/search_srt.py`, identical line for line: its lines 40-50 are lines 91-101
of `search_srt.py`, and its lines 60-79 are lines 111-130. One model covers both. The
table below cites each file for some members.

Modelling choices:

- The remote service is a function `replies: nat -> Exchange`. `replies(j)` is what the
  (j+1)-th request yields. `Raised(msg)` stands for any exception before the body is a
  dictionary: a transport failure, an HTTP error status from `raise_for_status()`, a
  body that is not JSON, or a body that is not a JSON object. `Json(body)` is a decoded
  object. A missing key raises `KeyError`, whose text `str(e)` is the key in single
  quotes (`Remote.KeyErrorText`).
- JSON values are `Remote.Value`. `Remote.Render` gives the text Python's `str()` gives
  them, which is what the f-strings embed.
- `time.sleep(5)` is a counter `sleeps`, and the requests are counted in `requests`.
- The poll tool's five results are the tagged `TrainSearch.Outcome`. `OutcomeText` maps
  each one to the exact sentence the source returns.
- `job_id` is `Option<string>`, where `None` stands for an absent key. "Missing" means
  `None` or `""`, which are the falsy values of that string argument.
- The unpacking `ValueError` of the weather tool is `Weather.UnpackError`, a datatype
  holding the number of pieces. It is not kept as message text, because that text
  differs between Python versions. The tool does not catch it, so `WeatherReport`
  returns it as `Err`.

The loop's proof of each branch rests on reference definitions in
`TrainSearchProperties`:

- `IsPendingReply`: a dictionary whose `status` is neither `COMPLETED` nor `ERROR`.
- `RaisesWith`: the loop body raises on the reply, with the given text.
- `CountPending`: how many of the first n replies are pending.
- `DecodeOutcome` and `JobIdOf`: how a caller reads the results back from the text.

## Model

| member | source | states |
|---|---|---|
| `Remote.Render` | agents/tools/search_srt.py:99-125 | The text an f-string embeds for a JSON value: a string is itself, any other value its `str()` rendering. |
| `TrainSearch.IsMissing` | agents/tools/search_srt.py:112-113 | `if not job_id` holds for an absent argument (None) and for the empty string, and for nothing else. |
| `TrainSearch.OutcomeText` | agents/tools/search_srt.py:114-130 | The five return texts of the poll tool: the missing-id error, "Search completed. Train information: " + data, "Search failed. Error: " + data, "Error getting search results: " + message, and the timeout sentence. |
| `TrainSearch.RequestTrainSearch` | agents/tools/search_srt.py:91-101 | The start tool always returns text that starts with either "Search requested successfully. Your job ID is: " or "Error requesting train search: ", so it never raises. |
| `TrainSearchProperties.RequestJobIdRoundTrip` | agents/tools/search_srt.py:92-99 | The start text carries a job id exactly when the reply was a JSON object with `result_id`, and the id read back is `str(result_id)`. |
| `TrainSearchProperties.RequestErrorText` | agents/tools.py:40-50 | A failed request, or a reply without `result_id`, gives "Error requesting train search: " + `str(e)` (for a missing key, `'result_id'`) and no job id. |
| `TrainSearch.Judge` | agents/tools/search_srt.py:117-129 | One pass of the loop body never produces the timeout or the missing-id result. |
| `TrainSearchProperties.JudgePending` | agents/tools.py:71-76 | A reply lets the loop continue to the sleep exactly when its status is present and is neither COMPLETED nor ERROR. |
| `TrainSearchProperties.JudgeRaises` | agents/tools.py:66-78 | A reply ends the loop with "Error getting search results: e" exactly when the body raises on it: the request failed, `status` is missing, or `data` is missing on a terminal status. |
| `TrainSearch.PollFrom` | agents/tools/search_srt.py:116-130 | The loop makes at most 8 requests and takes no more sleeps than requests. It times out exactly when it has slept 8 times. Otherwise it stops after one more request than sleeps. |
| `TrainSearch.Poll` | agents/tools.py:60-79 | No request is made exactly when the job id is None or empty, and exactly then the result is the missing-id error. At most 8 requests are made in every case. |
| `TrainSearch.GetTrainSearchResults` | agents/tools/search_srt.py:111-130 | The tool makes at most 8 requests. A missing or empty job id returns "Error: job_id is required." with zero requests. Text, request count and sleep count are those of `Poll`. |
| `TrainSearchProperties.SkipPending` | agents/tools/search_srt.py:116-127 | Pending replies only advance the loop: entering at request i or at the first later non-pending request gives the same run. |
| `TrainSearchProperties.StopAt` | agents/tools.py:66-78 | When replies 1 to k-1 are pending and reply k is not, the result is decided by reply k. Exactly k requests and k-1 sleeps are made, and no request after the k-th. |
| `TrainSearchProperties.CompletedAt` | agents/tools/search_srt.py:122-127 | COMPLETED on attempt k after pending replies gives "Search completed. Train information: " + `str(data)`, with exactly k requests and k-1 sleeps, so there is no sleep after attempt k. |
| `TrainSearchProperties.FailedAt` | agents/tools/search_srt.py:124-125 | ERROR on attempt k after pending replies gives "Search failed. Error: " + `str(data)`, with exactly k requests. |
| `TrainSearchProperties.RaisedAt` | agents/tools/search_srt.py:117-129 | An exception on attempt k gives "Error getting search results: " + `str(e)`. Exactly k requests are made and none after. The exceptions include transport and HTTP errors and a missing `status` or `data` key. |
| `TrainSearchProperties.TimedOutIff` | agents/tools.py:65-79 | The tool times out exactly when the job id is present and all 8 replies are pending (both directions). |
| `TrainSearchProperties.TimeoutAfterEightPending` | agents/tools/search_srt.py:116-130 | Eight pending replies give the timeout text after exactly 8 requests and 8 sleeps. A sleep follows the 8th attempt too, and 8 × 5 = 40 seconds. |
| `TrainSearchProperties.SleepsCountPending` | agents/tools.py:76 | The number of sleeps equals the number of pending replies among the requests made. |
| `TrainSearchProperties.OutcomeTextUnambiguous` | agents/tools/search_srt.py:114-130 | The five result texts can be told apart, and each gives back the data or message it embeds: `DecodeOutcome(OutcomeText(o)) == Some(o)`. |
| `TrainSearchProperties.ThirdReplyCompletes` | agents/tools/search_srt.py:116-127 | The replies PENDING, PENDING, COMPLETED give the completed result after exactly 3 requests and 2 sleeps. |
| `TrainSearchProperties.TransportErrorSecond` | agents/tools.py:65-78 | A connection error on attempt 2 gives the error text after exactly 2 requests. Attempts 3 to 8 are never made. |
| `Strings.Split` | agents/tools/weather.py:9 | `str.split(',')` yields one more piece than there are commas. |
| `Strings.SplitJoin` | agents/tools/weather.py:9 | Joining the pieces with the separator gives back the argument. |
| `Strings.SplitPiecesFree` | agents/tools/weather.py:9 | No piece contains the separator. |
| `Weather.ParseArgument` | agents/tools/weather.py:9 | Unpacking succeeds exactly when the argument has one comma. With no comma it fails with "not enough values" (got 1). With n ≥ 2 commas it fails with "too many values" (got n+1). |
| `Weather.ParseArgumentIff` | agents/tools/weather.py:9 | The argument parses to (city, date) exactly when it equals city + "," + date and neither piece has a comma. The city is the text before the comma and the date the text after it. |
| `Weather.WeatherReport` | agents/tools/weather.py:8-13 | The tool returns a report exactly when the argument has one comma, and otherwise lets the unpacking error escape. Every report ends with the fixed weather clause. |
| `Weather.ReportUsesRawPieces` | agents/tools/weather.py:12-13 | The report is date + "의 " + city + the fixed clause, built from the unstripped pieces, date first. |
| `Weather.ReportIndependentOfWeather` | agents/tools/weather.py:13 | After the echoed date and city, any two reports are identical: '맑음', 25°C and 15°C do not depend on the input. |
| `Weather.EmptyPieces` | agents/tools/weather.py:9-13 | "," is accepted with an empty city and an empty date. |

## Left out

- Real HTTP (`requests.get/post`, the URL built from `TRAIN_API_BASE_URL` and the job id, the JSON request body made from the tool's arguments) and dotenv loading: only the outcome of each exchange is modelled.
- A JSON body that decodes to something other than an object (a list, a string) makes `result['status']` or `result['result_id']` raise `TypeError`. The model folds this into `Raised(msg)`, with the message as input.
- `time.sleep` wall-clock timing: modelled as a sleep counter. The total delay is stated as sleeps × 5 seconds.
- Logging, and the `print` of the weather tool, which strips the pieces only for the console message.
- `CurrentDateTool` in both files: it only reads the system clock.
- `DateCalculatorTool` (agents/tools/search_srt.py:53-72): its result comes from a foreign LLM call.
- agents/crew.py (prompt text and agent/task wiring), agents/llm_crewai.py (an abstract interface), celery_worker.py, api/core/celery.py and api/server.py. The job store, broker, worker and gateway are Celery's or only call it, and their claiming and mutual exclusion are concurrent and live in the library. So the job lifecycle, id uniqueness and claim exclusion are not modelled.
- `job_id` values that are not strings (pydantic validates the argument as a string).
- The text of the unpacking `ValueError`: only its kind and piece count are modelled.

Behaviour of the code worth noting:

- The search-start operation returns a sentence that embeds the job id, not the bare id.
- The poll loop also stops at once on a missing `status` or `data` key, not only on transport errors.
- The loop sleeps after the 8th pending reply as well, before it returns the timeout text.
