# tfstool client core in Dafny

This project models the parts of the tfstool command-line client that decide
things without touching the network: the `TfsProxy` REST operations (the
status gate of `sendReq`, the tolerant JSON decoding of listings, changesets
and change lists, the endpoint URLs, the `version=` rewrite and the
`Web.config` workaround, the downloaded file names), the decisions the HTTP
layer takes around libcurl (header lists, transfer options, the debug and
write callbacks, the wait/perform loop of `easy_perform`, `get_file`), the
configuration-path join and directory walk of `filesys`, and the sub-command
table of `execute_cmd`.

Everything libcurl, cJSON, the URL encoder or the operating system would
answer is an input to the model:

- `cJSON_Parse` and `utils::UrlEncode` are function-typed parameters
  (`parse: string -> Option<Json.Value>`, `urlEncode: string -> string`);
- the response `exec` returns (body, header lines, status code) is a parameter
  of each proxy operation;
- one `easy_perform` is a function of an abstract, finite trace of what the
  multi interface reports per pass (wait code, ready count, suggested idle
  delay, perform code, running count, completion message);
- the callbacks of one transfer are a sequence of events;
- whether `fopen` succeeds is a parameter (`opens`);
- the password entry's home directory is a parameter; directories are an
  abstract set of existing paths plus a working directory.

The records the proxy fills (`TfFileInfo`, `ChangesetInfo`,
`ChangesetChange`) have constructors that are not part of this model, so
every decoder takes the default-constructed record as `blank`: a field that
the response lacks, or carries with the wrong JSON type, keeps the value it
has in `blank`. The only default written in the code, `IsFolder = false`, is
modelled.

Files: `wrappers.dfy` (Option), `strings.dfy` (C-string view, `find`/`rfind`,
`substr`, `%d`), `json.dfy` (cJSON item and typed member look-up),
`tfsmodels.dfy` (records and decoders), `http.dfy`, `tfsproxy.dfy`,
`filesys.dfy`, `commands.dfy`.

Notes on the code's behaviour, which the model follows:

- `sendReq` accepts only 200 and 201; any other status, 2xx or not, is
  refused and logged.
- TLS host and peer verification are switched off only by `exec`; file
  downloads (`get_file_fp`) leave libcurl's defaults in place
  (`Http.FileOptions` records this).
- `count` in a change list does not only size the result: a negative value
  aborts the operation (see Findings).
- `easy_perform` hands any nonzero idle suggestion to the wait, -1 included;
  the model's loop takes its idle rule as a flag (`positiveOnly`), and
  `easy_perform` itself uses the code's rule.
- `get_file_fp` always passes a NULL multi handle. The download members take
  the multi handle as a parameter: `NullMulti` is the code as written, a
  registered handle the corrected download (see Findings).

## Model

| member | source | states |
|---|---|---|
| Json.Lookup | src/services/tfsproxy.cpp:89-90 | a member is found only in an object and only if some member has that key; absent exactly when no member has it |
| Json.NumberAt | src/services/tfsproxy.cpp:89-92 | a number is read exactly when the member exists and is a JSON number |
| Json.StringAt | src/services/tfsproxy.cpp:96-99 | a string is read exactly when the member exists and is a JSON string |
| Json.ObjectAt | src/services/tfsproxy.cpp:94-95 | an object is read exactly when the member exists and is a JSON object |
| Json.ArrayAt | src/services/tfsproxy.cpp:80-82 | an array is read exactly when the member exists and is a JSON array |
| Strings.IntToDecimalRoundTrip | src/services/tfsproxy.cpp:118 | the `%d` rendering of a changeset id reads back to the same id |
| TfsModels.DecodeFileInfo | src/services/tfsproxy.cpp:278-299 | version, path and url are taken only when present with the right type and otherwise keep their defaults; IsFolder is true exactly for a JSON `true` |
| TfsModels.DecodeChangeset | src/services/tfsproxy.cpp:86-100 | the id is taken only from a number; the author only from a string `displayName` inside an object `author`; comment and changes keep their defaults |
| TfsModels.DecodeChange | src/services/tfsproxy.cpp:170-196 | changeType is taken only from a string; version, path and url only from an object `item`, each with its own type check |
| TfsModels.AppendDecoded | src/services/tfsproxy.cpp:84-103 | exactly one record per array element is appended, in order, malformed elements included, and the earlier records are untouched |
| TfsModels.DecodeFileInfoRoundTrip | src/services/tfsproxy.cpp:279-299 | a well-formed listing element decodes back to the entry it describes, whatever the defaults and whatever members follow |
| TfsModels.DecodeChangesetRoundTrip | src/services/tfsproxy.cpp:89-100 | a well-formed changeset element sets exactly the id and the author |
| TfsModels.DecodeChangeRoundTrip | src/services/tfsproxy.cpp:173-196 | a well-formed change element decodes back to the change it describes |
| TfsModels.AuthorWithoutDisplayName | src/services/tfsproxy.cpp:94-100 | an author object lacking `displayName` leaves the author at its default while the id is still taken |
| TfsProxy.SendReq | src/services/tfsproxy.cpp:40-58 | the body is parsed and handed back only for status 200 or 201; every other status yields nothing and exactly one log line of its own, after whatever `exec` logged; the request is an NTLM JSON request whose options follow `exec` |
| TfsProxy.StatusFailureLineNames | src/services/tfsproxy.cpp:52-53 | the failure line contains the URL and the decimal status code |
| TfsProxy.RefusedStatusLogged | src/services/tfsproxy.cpp:49-55 | `sendReq` logs a refused status in one line of its own, naming the URL and the status code |
| TfsProxy.FailedTransferLogged | src/services/tfsproxy.cpp:47-55 | when the transfer failed and the status is refused, the log holds `exec`'s failure line followed by `sendReq`'s status line, and no body is parsed |
| TfsProxy.UnregisteredRequestLogged | src/services/tfsproxy.cpp:47-55 | through the NULL multi handle, `exec` logs its failure, the status reads 0, and `sendReq` logs that status with an empty body |
| TfsProxy.PathInfoUrlRoundTrip | src/services/tfsproxy.cpp:255-260 | the listing URL carries the encoded scope path between its fixed parts, and it can be read back |
| TfsProxy.ChangesAfterUrl | src/services/tfsproxy.cpp:63-67 | the base URL followed by the encoded query, whose criteria name the starting changeset (when it holds no `&`) and the branch |
| TfsProxy.ChangesAfterQueryRoundTrip | src/services/tfsproxy.cpp:64-65 | the query starts with the `fromId` criterion and ends with the id ordering; the changeset, when it holds no `&`, and the branch are read back from it |
| TfsProxy.ChangesetUrlRoundTrip | src/services/tfsproxy.cpp:116-121 | the changeset URL names the changeset it was built for |
| TfsProxy.ChangesetChangesUrlRoundTrip | src/services/tfsproxy.cpp:145-151 | the change-list URL names the changeset it was built for |
| TfsProxy.ListChildren | src/services/tfsproxy.cpp:272-301 | the listed entries never include the queried path and are no more than the elements |
| TfsProxy.ListChildrenAppend | src/services/tfsproxy.cpp:272-301 | the listing keeps array order: listing a concatenation lists each part in turn |
| TfsProxy.ListChildrenMembers | src/services/tfsproxy.cpp:284-300 | an entry is listed exactly when some element decodes to it and its path differs from the queried one |
| TfsProxy.PathlessElementKept | src/services/tfsproxy.cpp:284-289 | an element without a string path is dropped only when the queried path equals the default path |
| TfsProxy.CollectChildren | src/services/tfsproxy.cpp:269-301 | the decoding loop with its early `continue` produces exactly the reference listing |
| TfsProxy.ListingOf | src/services/tfsproxy.cpp:264-270 | no entries when the request failed or `value` is missing or not an array |
| TfsProxy.GetPathInfo | src/services/tfsproxy.cpp:253-305 | the listing request is sent to the listing URL; a refused status lists nothing; no entry has the queried path |
| TfsProxy.ListingRoundTrip | src/services/tfsproxy.cpp:272-301 | a listing of well-formed entries yields those entries, in order, minus the self entry |
| TfsProxy.ForbiddenListingIsEmpty | src/services/tfsproxy.cpp:264-267 | a 403 listing yields no entries and one log line |
| TfsProxy.GetChangesAfter | src/services/tfsproxy.cpp:60-111 | true exactly when the body parsed and `value` is an array; then one changeset is appended per element with the earlier ones kept; on false the list is unchanged; `count` plays no part |
| TfsProxy.GetChangesetComment | src/services/tfsproxy.cpp:113-140 | true exactly when the body parsed; only the comment can change, and only to a string `comment` |
| TfsProxy.GetChangesetChanges | src/services/tfsproxy.cpp:142-207 | true exactly when the body parsed and `value` is an array; then one change is appended per element; nothing else about the changeset changes |
| TfsProxy.GetChangesAfterAsWritten | src/services/tfsproxy.cpp:75-78 | aborts with a length error exactly when `count` is a negative number, and otherwise behaves as the corrected operation |
| TfsProxy.GetChangesetChangesAsWritten | src/services/tfsproxy.cpp:159-162 | aborts with a length error exactly when `count` is a negative number, and otherwise behaves as the corrected operation |
| TfsProxy.NegativeCountAborts | src/services/tfsproxy.cpp:75-82 | a 200 response `{"count": -1, "value": []}` aborts both operations as written while the corrected ones return true with the data unchanged |
| TfsProxy.RewriteVersion | src/services/tfsproxy.cpp:227-234 | the URL is kept up to its first `version=`, followed by `version=` and the id; a URL without `version=` is unchanged |
| TfsProxy.RewriteVersionRoundTrip | src/services/tfsproxy.cpp:228-234 | after a rewrite the URL asks for exactly the requested revision, and a second rewrite simply replaces the first |
| TfsProxy.ChangesetFileUrl | src/services/tfsproxy.cpp:220-235 | a path containing `Web.config` is fetched by item query with the path after its first character; any other file by its rewritten server URL |
| TfsProxy.LastSegment | src/services/tfsproxy.cpp:243-248 | the text after the last `/`, which holds no `/`; empty when the path has none |
| TfsProxy.DownloadRequest | src/services/tfsproxy.cpp:240-241 | a download request carries the URL and NTLM credentials and no extra headers |
| TfsProxy.GetChangesetFile | src/services/tfsproxy.cpp:209-251 | requests the selected URL for the path's last segment and returns true exactly when that file could be opened; the transfer goes through the given multi handle, `NullMulti` being the code as written |
| TfsProxy.DirectFileName | src/services/tfsproxy.cpp:313-322 | empty without a `/`; otherwise a prefix of the text after the last `/` |
| TfsProxy.DirectFileNameQuery | src/services/tfsproxy.cpp:316-318 | with the last `?` after the last `/`, the name is the text between them |
| TfsProxy.DirectFileNameWrap | src/services/tfsproxy.cpp:316-318 | with the last `?` before the last `/`, the unsigned count wraps and the name is the whole rest of the URL |
| TfsProxy.DirectFileNameCases | src/services/tfsproxy.cpp:313-322 | the name ends before a `?` that follows the last `/`, runs to the end otherwise, and never holds a `/` |
| TfsProxy.GetDirectFile | src/services/tfsproxy.cpp:307-325 | requests the URL with NTLM for the derived file name, through the given multi handle (`NullMulti` being the code as written) |
| TfsProxy.DownloadsAsWritten | src/services/tfsproxy.cpp:240-250 | as written, both downloads make the file but transfer nothing: zero passes of the loop, and `GetChangesetFile` still reports true |
| Http.HeaderText | src/services/http.cpp:341-343 | the `key: value` text cut to at most 2047 characters |
| Http.AddHeader | src/services/http.cpp:338-346 | one line appended at the end, earlier lines and everything else unchanged; the full `key: value` when it fits |
| Http.SetContent | src/services/http.cpp:202-207 | `Content-Type: ` and the type appended at the end; nothing else changes |
| Http.AuthSchemesExclusive | src/services/http.cpp:324-336 | the last credential call decides the one active scheme |
| Http.ExecOptions | src/services/http.cpp:215-245 | GET for exactly "GET", POST for exactly "POST", a custom request carrying the name otherwise; the body and its length when given, size 0 otherwise; TLS checks off, no redirects |
| Http.FileOptions | src/services/http.cpp:287-298 | a GET with no body that follows redirects and keeps libcurl's TLS defaults |
| Http.InboundHeader | src/services/http.cpp:110-124 | the stored header line is a prefix of the raw data without CR or LF, cut exactly at the first of them |
| Http.OnDebug | src/services/http.cpp:96-141 | outbound header bytes are appended verbatim, inbound lines are cleaned and appended, trace lines appear only when verbose, the body is untouched |
| Http.OnBodyChunk | src/services/http.cpp:70-81 | a chunk containing the `100 Continue` marker is dropped, any other is appended; the full size is always reported as consumed |
| Http.Deliver | src/services/http.cpp:89-141 | each callback only extends the collected headers, body and log |
| Http.Collect | src/services/http.cpp:96-142 | a whole transfer leaves the inbound lines, outbound bytes and body the event-by-event references describe, and no trace unless verbose |
| Http.CollectExtends | src/services/http.cpp:102-124 | later callbacks never alter what earlier ones collected |
| Http.InboundHeadersClean | src/services/http.cpp:116-124 | no stored inbound header line holds CR or LF |
| Http.AddHandle | src/services/http.cpp:151-153 | a NULL multi handle is refused as a bad handle |
| Http.MultiErrorResult | src/services/http.cpp:190-195 | out-of-memory on the multi level gives OUT_OF_MEMORY, any other multi error BAD_FUNCTION_ARGUMENT |
| Http.IdleSleepAsWritten | src/services/http.cpp:168-172 | any nonzero suggestion is passed to the wait: unchanged up to 1000 ms, 1000 above that, with no lower bound |
| Http.IdleSleep | src/services/http.cpp:162-174 | only a positive suggestion sleeps, for at most 1000 ms and never longer than suggested |
| Http.IdleSleepAgrees | src/services/http.cpp:168-172 | the two idle rules agree on every non-negative suggestion |
| Http.ToDword | src/services/http.cpp:39-40 | the 32-bit unsigned conversion of a sleep length |
| Http.NoTimerSleepsForever | src/services/http.cpp:168-172 | the "no timer" suggestion -1 is passed to the sleep and, as a DWORD, is far beyond 1000 ms |
| Http.PollSleep | src/services/http.cpp:159-175 | a pass sleeps only after a successful wait with nothing ready and a nonzero suggestion; under the code's rule every such pass sleeps, -1 included, and under the corrected rule exactly the positive ones; the sleep is the suggestion when it is at most 1000 ms and exactly 1000 ms above that |
| Http.PollOutcome | src/services/http.cpp:155-195 | a multi-level failure ends the loop with its mapped result; otherwise the loop ends exactly when nothing is running and a completion message reports the result |
| Http.PollLoop | src/services/http.cpp:155-188 | the loop stops at the first pass that ends it, reporting that pass's result; the sleeps recorded are exactly those of the passes made, in order (`Http.SleepsOf`); every value handed to `WAITMS` is nonzero and at most 1000, which under the code's rule admits -1 (no timer, INFINITE as a DWORD), and is positive under the corrected rule |
| Http.PollLoopRulesAgree | src/services/http.cpp:159-175 | while libcurl suggests no negative delay, the loop as written is the corrected loop: same passes, same result, every sleep positive and at most 1000 ms |
| Http.EasyPerform | src/services/http.cpp:144-200 | a refused registration returns FAILED_INIT without looping; otherwise the result, passes and sleeps of the loop under the code's idle rule (so a recorded sleep may be -1), and the handle is removed once the loop ends |
| Http.NoTimerPassBlocks | src/services/http.cpp:162-172 | an empty wait with no timer hands -1 (INFINITE as a DWORD) to the wait in the code, where the corrected loop does not sleep |
| Http.MultiFailureStops | src/services/http.cpp:155-195 | a first pass failing on the multi level ends the transfer after one pass with the mapped result |
| Http.Exec | src/services/http.cpp:209-258 | the response holds the collected headers and body and the reported status; a failed transfer is logged and still returns a response; when the handle could not be registered no callback runs, so body and headers are empty, the status reads 0 and the log is the failure line alone |
| Http.GetFileFpAsWritten | src/services/http.cpp:283-308 | the download as written: options of a file download and always true |
| Http.GetFileFpNeverTransfers | src/services/http.cpp:300-307 | as written, registration with the NULL handle fails, no pass runs, the failure is logged and true is still returned |
| Http.GetFileFp | src/services/http.cpp:283-308 | through the executor's handle: true whatever the result, with a log line exactly when the transfer failed |
| Http.GetFileFpTransfers | src/services/http.cpp:300-303 | through a registered handle the download's result is the loop's result |
| Http.GetFile | src/services/http.cpp:267-281 | false exactly when the destination cannot be opened, and then nothing is transferred; otherwise the download through the given multi handle |
| Http.GetFileAsWritten | src/services/http.cpp:267-307 | with the NULL handle the code passes, an opened destination is never written to (FAILED_INIT after zero passes) and true is still returned |
| FileSys.HomeDirectory | src/utils/filesys.cpp:39-46 | the password entry's directory, or empty when there is none |
| FileSys.DirPrefix | src/utils/filesys.cpp:50-52 | extends the home directory and ends in a separator unless empty; exactly the home directory when it already ends in one, and one separator longer otherwise |
| FileSys.ConfigPath | src/utils/filesys.cpp:48-54 | starts with the home directory, ends with the file name, has exactly one separator between them when there is a home directory, and its length counts the separator only when one was inserted |
| FileSys.DirPrefixIdempotent | src/utils/filesys.cpp:51-52 | a home directory already ending in the separator gets no second one |
| FileSys.ConfigPathFileName | src/utils/filesys.cpp:48-54 | the file name is what follows the last separator of the configuration path |
| FileSys.Resolve | src/utils/filesys.cpp:58-66 | `.` is the working directory, `..` its parent, any other component a child of it |
| FileSys.MakeDir | src/utils/filesys.cpp:63 | a directory is added only when it is missing and its parent exists |
| FileSys.ChangeDir | src/utils/filesys.cpp:66 | the working directory moves only to an existing directory |
| FileSys.CreateDirThenChange | src/utils/filesys.cpp:56-67 | creates at most the named directory, never an existing one, and enters it; the directory state stays well formed |
| FileSys.GoUp | src/utils/filesys.cpp:69-72 | moves to the parent and creates nothing |
| FileSys.EnterThenGoUp | src/utils/filesys.cpp:56-72 | entering a child and going up returns to the previous working directory with only that child added |
| FileSys.ExistingDirNotRecreated | src/utils/filesys.cpp:58-65 | entering an existing directory changes nothing on disk |
| Commands.Dispatch | src/commands.cpp:41-54 | a handler is found only from an entry with that exact name; none when no entry has the name |
| Commands.OnlyGetIsKnown | src/commands.cpp:36-39 | with the shipped table exactly `get` is accepted |
| Commands.FindOperation | src/commands.cpp:43-50 | the search stops at the first entry with exactly that name, or at the sentinel |
| Commands.CollectArgs | src/commands.cpp:56-60 | the first `num_args` words in order, none when `num_args` is not positive |
| Commands.ExecuteCmd | src/commands.cpp:41-63 | true exactly when the name selects an entry with a handler, which is then invoked once with the converted arguments |

## Left out

- The tree synchronizer (clone and tree walk) is not part of this model: its source is not among the files modelled.
- `src/utils/logging.cpp` and `src/main.cpp`: an output sink and process start-up; log lines are modelled only as the sequence of texts written.
- libcurl itself: handles, `setopt`, NTLM and Basic authentication, TLS, redirects, sockets and the real waits; only the decisions taken around it are modelled, with its answers as inputs.
- `elapsed` and `CURLINFO_TOTAL_TIME`: floating-point timing.
- `cJSON_Parse` and `utils::UrlEncode` are parameters: their implementations are not part of this model.
- Json.Lookup: real cJSON compares keys without regard to case; the model matches keys exactly.
- Json.NumberAt: cJSON's saturation of `valueint` for numbers outside the `int` range is not modelled; a number carries its `valueint` directly.
- Http.SetContent: `curl_slist_append` returning NULL when out of memory (which drops the whole list) is not modelled.
- Http.OnBodyChunk: `strstr` on a chunk that is not NUL-terminated may read past it; the model searches only the chunk's bytes up to its first NUL.
- Http.ExecOptions: libcurl switching a GET to POST when post fields are set is libcurl behaviour and not modelled.
- TfsProxy.SendReq: its log holds only the line `sendReq` writes; the failure line `exec` writes before it belongs to `Http.Exec`'s log, and `TfsProxy.FailedTransferLogged` puts the two together.
- Http.GetFile: the multi handle is a parameter; the code always passes NULL, which `Http.GetFileAsWritten` covers. Any other handle gives the corrected download, which the code never runs.
- TfsProxy.GetChangesetFile: as for `Http.GetFile`, `Http.NullMulti` is the code as written (`TfsProxy.DownloadsAsWritten`).
- TfsProxy.GetDirectFile: as for `Http.GetFile`, `Http.NullMulti` is the code as written (`TfsProxy.DownloadsAsWritten`).
- Http.EasyPerform: the loop is a function of a finite trace; a trace that ends with the loop still running gives no result, so non-termination is modelled only as an unfinished trace.
- FileSys.CreateDirThenChange: names that are empty or contain `/` or NUL are not covered (the result is None); permissions (`access` failing with EACCES, `mkdir` refused) are not modelled.
- `cmd_get`'s `printf` output is not modelled; an invocation records the handler and its arguments.
- The memory of the parsed body leaking when `GetChangesAfter` and `GetChangesetChanges` return early, and a huge positive `count` making `reserve` fail for lack of memory, are not modelled.
- `http_get_error_str`, `set_cert`, `http_lib_startup` and `http_lib_shutdown` only forward to libcurl and are not modelled.

## Findings

| source | as written | input that shows it | evidently intended | confidence | as-written member | corrected member |
|---|---|---|---|---|---|---|
| src/services/http.cpp:300 | `get_file_fp` passes a NULL multi handle to `easy_perform`, so registration fails with a bad-handle code and the transfer never runs; the function still returns true | any download: `Http.GetFileFpNeverTransfers` shows the result FAILED_INIT after zero passes | drive the transfer through the executor's multi handle, as `exec` does | high, not executed | Http.GetFileFpAsWritten | Http.GetFileFp |
| src/services/tfsproxy.cpp:75-78 | `changes.reserve(count->valueint)` with a negative `count` converts to a huge size and throws `std::length_error`, which nothing catches | status 200 with body `{"count": -1, "value": []}` (`TfsProxy.NegativeCountAborts`) | `count` only as a capacity hint: return true with the list unchanged | high, not executed | TfsProxy.GetChangesAfterAsWritten | TfsProxy.GetChangesAfter |
| src/services/tfsproxy.cpp:159-162 | the same `reserve` call on a changeset's change list | status 200 with body `{"count": -1, "value": []}` (`TfsProxy.NegativeCountAborts`) | return true with the changeset unchanged | high, not executed | TfsProxy.GetChangesetChangesAsWritten | TfsProxy.GetChangesetChanges |
| src/services/http.cpp:168-172 | `if (sleep_ms)` lets the "no timer" answer -1 through; on Windows `Sleep(-1)` waits forever instead of at most 1000 ms | `curl_multi_timeout` reporting -1 after an empty wait (`Http.NoTimerSleepsForever`, `Http.NoTimerPassBlocks`) | sleep only for a positive suggestion, capped at 1000 ms (`Http.PollLoop` with `positiveOnly`, equal to the code's loop by `Http.PollLoopRulesAgree` whenever no -1 is reported) | medium, not executed | Http.IdleSleepAsWritten | Http.IdleSleep |
