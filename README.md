# Drogon microservice core, modelled in Dafny

This project models the parts of a small Drogon HTTP/WebSocket service that have behaviour
worth stating as contracts:

- **TimeFilter** (`time_filter.dfy`): the rate limiter on `/slow`. It keeps the time of the
  last admitted visit in the client's session under `"visitDate"` and lets a request through
  at most once per 10 s. The session is a `Session` object whose `entries` map the
  `DoFilter` method updates in place. Time is whole microseconds and the interval is
  10 000 000 µs. The pure `Step` function states what one call does. `Run` strings calls
  together to prove that admissions are spaced.
- **OriginReject** (`origin_filter.dfy`): the origin/CORS middleware. `Classify` is the
  three-way decision: reject, preflight or forward. Responses are `Response` objects whose
  header sequence `AddHeader` appends to, as the code's `addHeader` calls do. `Invoke` is the
  whole middleware and `Decorate` is the response decorator it registers.
- **EnvLoader** (`env_loader.dfy`): the `.env` parser and the environment lookups. The file
  is its sequence of lines, or `None` when it cannot be opened. The process environment is a
  `map<string, string>`. `LoadEnvFile` is the loader's loop, proved equal to the fold `Load`.
  `ParseEntry` is the loop body, proved equal to the per-line function `ParseLine`. The
  `std::string` searches `find_first_not_of`, `find_last_not_of` and `find` are written as
  functions with contracts that pin down their results.
- **EchoWebsock** (`echo_websock.dfy`): the `/echo` WebSocket handler. A `Connection` has an
  `outbox` of the payloads sent on it. `Serve` stands for the transport delivering a
  connection's events to the three handlers in order.

`wrappers.dfy` holds the `Option` type that `EnvLoader` uses. It stands for a search that
finds nothing (`npos`), a line that defines nothing, and a file that cannot be opened.

Decisions the model takes from the code:

- A blocked origin gets 404, because the code calls `newNotFoundResponse`
  (filters/OriginRejectFilter.cc:17).
- The forwarding decorator never checks the response it receives for null. It dereferences
  the response only when the origin is non-empty (filters/OriginRejectFilter.cc:42-45); with
  an empty origin it hands the response on untouched (:47). The model's response is never
  null.
- Elapsed and remaining time are integer microseconds. The code takes the difference of
  two microsecond stamps (filters/TimeFilter.cc:28-29) before converting it to seconds.

Two behaviours of the code that are easy to miss are proved:

- On a denial, the clamp `remaining > 0 ? remaining : 0` never takes its zero branch.
  Denial happens only when less than 10 s has passed, so `remaining` is always positive and
  `elapsed + remaining` is exactly 10 s (`TimeFilter.Step`). This holds even when the clock
  went backwards and `elapsed` is negative.
- A `.env` value made only of spaces, tabs and quotes is kept as written, not emptied.
  For example, `KEY=""` loads the two-character value `""` (`EnvLoader.StripValue`).

## Model

| member | source | states |
|---|---|---|
| TimeFilter.Remaining | filters/TimeFilter.cc:31-52 | the remaining wait is never negative; when at most 10 s has elapsed, elapsed plus remaining is exactly 10 s; it is zero once 10 s or more has elapsed |
| TimeFilter.Step | filters/TimeFilter.cc:19-63 | one call on a session: only "visitDate" may change and it is present afterwards; the call is admitted iff it is a first visit or at least 10 s has passed since the stamp; an admission sets the stamp to now; a denial leaves the session unchanged and answers 429 with result "error", the interval message, the elapsed time and a positive remaining time that add up to 10 s |
| TimeFilter.DoFilter | filters/TimeFilter.cc:8-64 | with no session the request passes and nothing is touched; otherwise the outcome and the session's new entries are those of `Step` on the old entries |
| TimeFilter.StampCoversAdmissions | filters/TimeFilter.cc:34-63 | after any run of calls, even one where the clock steps back, "visitDate" is set and no earlier than the time of any admitted call |
| TimeFilter.AdmissionsSpaced | filters/TimeFilter.cc:34-57 | in any run of calls, even one where the clock steps back, any two admitted calls are at least 10 s apart, because denials never move the stamp |
| TimeFilter.RunTouchesOnlyVisitDate | filters/TimeFilter.cc:37-62 | over any run of calls, every session entry other than "visitDate" keeps its value |
| TimeFilter.FiveSecondsApart | filters/TimeFilter.cc:46-57 | two visits 5 s apart: the second is denied with 5 s elapsed and 5 s remaining, and the stamp stays at the first visit |
| TimeFilter.ElevenSecondsApart | filters/TimeFilter.cc:34-44 | two visits 11 s apart: both pass and the stamp moves to the second |
| OriginReject.OriginOf | filters/OriginRejectFilter.cc:11 | the request's origin header, or the empty string when the header is absent |
| OriginReject.ContainsIff | filters/OriginRejectFilter.cc:15 | the search `Contains`, which models `origin.find(...) != npos`, succeeds iff the pattern occurs at some index of the text |
| OriginReject.Classify | filters/OriginRejectFilter.cc:14-22 | the request is rejected iff its origin contains the forbidden host, for any method; otherwise it is a preflight iff the method is OPTIONS and is forwarded iff it is not; an empty origin is never rejected |
| OriginReject.Response.AddHeader | filters/OriginRejectFilter.cc:28-31 | appends exactly one header pair and leaves status and body alone |
| OriginReject.Response.SetStatusCode | filters/OriginRejectFilter.cc:34 | sets the status; headers and body are unchanged |
| OriginReject.Decorate | filters/OriginRejectFilter.cc:40-48 | appends Allow-Origin (the origin) and Allow-Credentials "true" iff the origin is non-empty; status, body and the existing headers are unchanged |
| OriginReject.Invoke | filters/OriginRejectFilter.cc:7-49 | exactly one response is produced, and the next stage is invoked iff the request is forwarded; a rejected request gets a fresh 404 not-found response with no headers added; a preflight gets a fresh 200 with the four CORS headers when the origin is non-empty and none otherwise; a forwarded request gets the downstream response with only the decorator's headers appended; the downstream response is untouched unless the request is forwarded |
| EnvLoader.FindFirstNotOf | env_loader.h:51-52 | the result is the first index whose character is outside the set, or none iff every character is in the set |
| EnvLoader.FindLastNotOf | env_loader.h:69-70 | the result is the last index whose character is outside the set, or none iff every character is in the set |
| EnvLoader.IndexOf | env_loader.h:58-59 | the result is the first index holding the character, or none iff the character does not occur |
| EnvLoader.StripValue | env_loader.h:74-79 | a value made only of spaces, tabs and quotes is kept unchanged; any other value comes back non-empty, with no such character at either end |
| EnvLoader.ParseLine | env_loader.h:44-84 | an empty or all-blank line defines nothing, and neither does a line without `=`; every key produced is non-empty, has no `=`, does not start with `#` and has no blank at either end |
| EnvLoader.SkipsComment | env_loader.h:47-55 | a line whose first non-blank character is `#` defines nothing |
| EnvLoader.EmptyKeySkipped | env_loader.h:81 | a line whose first non-blank character is `=` has an empty key and defines nothing |
| EnvLoader.ParseLineSplits | env_loader.h:57-82 | a line of blanks, a valid key, blanks, `=` and any text defines that key with the stripped text, so the value may itself contain `=` |
| EnvLoader.TrimKey | env_loader.h:68-72 | a key made only of blanks (or empty) is kept as it is; any other key loses exactly its trailing blanks: the result is a non-empty prefix ending in a non-blank, and everything cut off is blank |
| EnvLoader.TrimKeyOf | env_loader.h:68-72 | trimming `TrimKey` of a key followed by blanks gives back the key |
| EnvLoader.StripValueOf | env_loader.h:74-79 | stripping a value padded with spaces, tabs and quotes gives back exactly the value |
| EnvLoader.ParseLineShape | env_loader.h:57-82 | every line that defines something is blanks, the key, blanks, `=` and a raw text whose stripped form is the value |
| EnvLoader.ParseEntry | env_loader.h:44-84 | the loop body yields the key and value `ParseLine` gives, or an empty key when the line defines nothing |
| EnvLoader.TrimEntry | env_loader.h:68-79 | the in-place trimming of the key and the value gives exactly `TrimKey` of the key text and `StripValue` of the value text |
| EnvLoader.LoadEnvFile | env_loader.h:29-89 | a file that cannot be opened loads nothing; otherwise the result is `Load` of its lines |
| EnvLoader.LoadKeys | env_loader.h:81-82 | a key is loaded iff some line of the file defines it |
| EnvLoader.LoadLastWins | env_loader.h:82 | the value loaded for a key is the one on the last line that defines it |
| EnvLoader.LoadedKeysValid | env_loader.h:58-82 | every loaded name is a valid key: non-empty, free of `=`, with no blank at either end |
| EnvLoader.SetEnvironmentVariables | env_loader.h:100-108 | every loaded variable is set with its loaded value, overwriting; other variables keep theirs; the defined names are the union |
| EnvLoader.GetEnvVariable | env_loader.h:117-126 | the variable's value when it is set, even an empty one, and otherwise the default |
| EnvLoader.ValidateRequiredEnvVariables | env_loader.h:134-143 | true iff every required name is set in the environment |
| EnvLoader.GetAfterLoad | main.cc:42-46 | after the file is loaded into the environment, a variable it defines reads as the value on its last defining line |
| EnvLoader.GetAfterLoadUndefined | main.cc:42-46 | after the file is loaded into the environment, a variable it does not define reads as before |
| EchoWebsock.Connection.Send | controllers/EchoWebsock.cc:6 | one send appends exactly that payload to the connection's outbox |
| EchoWebsock.HandleNewMessage | controllers/EchoWebsock.cc:3-7 | the received payload, of any kind and even when empty, is appended verbatim to the same connection's outbox as one message |
| EchoWebsock.HandleNewConnection | controllers/EchoWebsock.cc:9-12 | nothing is sent and no state changes |
| EchoWebsock.HandleConnectionClosed | controllers/EchoWebsock.cc:14-17 | nothing is sent and no state changes |
| EchoWebsock.PayloadsOfMessages | controllers/EchoWebsock.cc:3-7 | for a run made only of messages, the echoed payloads are those messages, one for one, in order |
| EchoWebsock.Serve | controllers/EchoWebsock.cc:3-17 | delivering a connection's events in order appends exactly the message payloads, in arrival order, to its outbox; another connection's outbox is unchanged |

## Left out

- TimeFilter.DoFilter: the 64-bit microsecond arithmetic is not modelled. The model uses
  unbounded integers, so it ignores an `int64_t` overflow of `now - last`, which would need
  stamps some 292,000 years apart.
- TimeFilter.Step: elapsed and remaining time are integer microseconds, not seconds as
  doubles. The code divides the microsecond difference by 1 000 000.0 and compares the
  quotient with 10, which decides exactly as the model's comparison with 10 000 000 µs does.
  The reported `elapsed_seconds` and `remaining_seconds` are the same quantities in
  microseconds, without the code's floating-point rounding.
- The session is a map from keys to microsecond stamps. Other parts of the application may
  store values of other types under other keys; the filter only reads and writes
  "visitDate".
- Concurrency: the framework guards each session operation on its own. But the filter's
  `find` (filters/TimeFilter.cc:23), `get` (:25) and `modify` (:37) are three separate calls,
  with no lock held across them. Two concurrent requests on one session can both see the old
  stamp and both be admitted. The model treats each filter call as one sequential step, so it
  assumes no other request on the session runs between those three calls.
  TimeFilter.AdmissionsSpaced depends on that assumption.
- Response construction is framework code. JSON serialisation of the 429 body, the
  framework's default headers (content type), the text of the framework's not-found page
  (modelled as the marker body `NotFoundPage`) and all logging are not modelled.
- OriginReject.Response.AddHeader: the framework's header store lower-cases names and
  replaces an existing header of the same name. The model appends to a sequence, so a
  downstream response that already set a CORS header holds two entries for it in the model.
- Request header names are matched case-insensitively by the framework. The model looks up
  the lower-case key `"origin"` in a map assumed to be already lower-cased.
- EnvLoader.SetEnvironmentVariables: the failure path of `setenv` is not modelled (the
  function always succeeds). By `LoadedKeysValid`, the names the loader produces are never
  rejected by `setenv` as empty or containing `=`; only running out of memory remains.
- Keys and values reach `setenv` and `getenv` through `c_str()`, which cuts a string at its
  first NUL character. The map model keeps such strings whole, so `GetAfterLoad` does not
  cover a key or value that contains NUL.
- Reading the file: `std::getline` is represented by the given sequence of lines. A
  carriage return left at the end of a line is an ordinary character to the model, as it
  is to the code.
- The log messages of `loadEnvFile`, `getEnvVariable` and `validateRequiredEnvVariables`
  are not modelled.
- `main.cc` (locating the `.env` file, reading the configuration file, `std::stoi` on the
  thread count, starting the server) is startup I/O and framework calls. It is not part of
  this model.
- `controllers/DbHealthController.cc` (an asynchronous SQL query), `controllers/demo_v1_User.cc`
  (JSON around a random UUID) and the view and fixed-body controllers
  `controllers/TestController.cc` and `controllers/TestCtrl.cc` are not part of this model.
- EchoWebsock.HandleNewMessage: the outbox records payloads only. The frame type used by
  `send` (the framework's default, text) is not recorded, and closing the socket is left to
  the transport.
