# A verified model of the libanetd HTTP client

libanetd downloads a document over HTTP/1.0 into memory or into a file. This project models
the four parts of it that carry state or invert one another, and proves what they do for
every input:

* **The response parser** inside `http_engine::receive()`, a machine of seven states that
  walks over the bytes of one read after the other (`Parser.dfy`, `HttpEngine.dfy`). `Step`
  and `Feed` are the machine; `Receive` is the run over the reads of a connection.
  `Grammar.dfy` reads a whole stream in one go, by delimiters instead of bytes, and says in
  closed form what the response must be; the machine is proved to compute exactly that.
* **The redirect loop** of `connect()`, with `send()` and the request it prints
  (`Engine.dfy`, `HttpEngine.dfy`, `Follow.dfy`, `Runs.dfy`, `Requests.dfy`).
* **The two sinks**, `http_response` and `http_response_file` (`Response.dfy`,
  `FileName.dfy`, `FileSink.dfy`, `FileHead.dfy`, `FileContents.dfy`, `FileRedirect.dfy`).
* **The codecs**: header lines and response heads (`RoundTrip.dfy`), the URL expression
  (`Url.dfy`), and Base64 with line breaks (`Base64.dfy`).

`Witnesses.dfy` gives inputs for the surprises listed below.

A class of the source is a Dafny class (`HttpResponse`, `HttpEngine`) whose methods change
its fields; every such method is proved equal to a function on the values of those fields,
and the theorems are about the functions. The methods that `http_response_file` overrides
choose their behaviour by the constant `sink`.

The outside world enters through parameters. A connection is a sequence of reads, each of 1
to 2048 bytes, followed by the end of the stream. With each read comes the answer to the
open call that a file sink may make after it. The answers of the servers are a function
from the number of the request, so that they may change over time. The two proxy variables
of the environment are strings. The files that exist are a map from path to contents.

## What was found

* **Receiving follows the grammar.** `Grammar.ReceiveFollowsGrammar` fixes the outcome of
  `receive()` for every byte stream and every cut, including malformed ones. Chunking
  independence, left-biased headers, the exact body length and the round trip of section 6
  of RFC 1945 rest on it.
* **Redirects leave no trace in a memory response.** `Runs.RedirectTransparency`: outcome and
  response are those of a direct fetch of the last URL.
* **Six redirects are followed** from a fresh engine, never more
  (`Engines.AtMostSixRedirects`) and, while answers only redirect, never fewer
  (`Runs.SixRedirectsExactly`); section 9.3 of RFC 1945 suggests five.
* **A proxy can stay after a redirect.** The last request is the direct one, too, except
  when an earlier URL of the run brought in a proxy that the last URL has none of: the proxy
  mode is not switched off between hops, and the last server gets the absolute form of the
  target, and the credentials line for the proxy if there are any. `Runs.RedirectTransparency`
  gives the exact condition, `Witnesses.ProxyStaysOn` a run, and without proxies in the
  environment there is no exception (`Runs.TransparencyWithoutProxies`).
* **Outcomes are classified for both sinks** (`Runs.ConnectOutcome`): what status, version,
  description and headers a run leaves, and when it can end with a redirect status.
* **The file sink depends on the cut**, because the end of the body is looked for in the
  buffer that each flush empties. `FileContents.FileSinkContents` says what file and memory
  hold at the end, for every cut and every pattern of failing open calls, and
  `FileContents.FileHoldsBody` when that is the announced body; servers that send no more
  than they announce are covered. `Witnesses.CutsDiffer` cuts one stream in two ways, with
  two different files as a result.
* **The reported size is often wrong.** `FileContents.ReportedSizeIsStored` gives the exact
  condition for it to be right. When it is wrong and the server sends no more than it
  announces, the size is 0; when more is sent it can be too small
  (`Witnesses.SizesDiffer`).
* **A file can stay open.** It is closed when one group of bytes in memory brings the
  announced length, and stays open when the connection is closed first; then the next
  transfer into the same response appends to it
  (`FileContents.FileSinkContents`, `FileContents.SecondTransferAppends`). After a reset
  the next document goes into a new file (`Runs.ResetProtectsFiles`).
* **A redirect can name the file.** The flush during the headers opens the file, so a
  redirect whose head needs more than one read leaves the document under the name of the
  URL that redirected. `FileRedirect.DocumentPath` gives the path for whole runs of
  `connect()`, and `Witnesses.WrongName` such a run.
* **Long credentials break the request.** A Basic token is wrapped after 72 characters, so
  it is one line exactly when user, colon and password have at most 54 bytes
  (`Requests.TokenIsOneLine`); that statement depends on no reader. What becomes of the
  request is told for a reader that treats the header block as the library does, although
  the library itself never reads a request: the `Authorization` line survives exactly up to
  those 54 bytes (`Requests.AuthorizationReadBack`, `Witnesses.LongCredentials`), and
  `Requests.RequestReadsBack` says when the whole request does. A colon in the user name
  makes the credentials ambiguous (`Requests.CredentialsRoundTrip`,
  `Witnesses.ColonCredentials`).
* **Every request has one empty line too many** before its body
  (`Requests.RequestHeadersParse`).
* The documentation in `include/anetd/http_response.hpp` says that a redirect resets the
  response (lines 58-64) and that internal errors give a negative status (lines 75-81). The
  code does neither, and the model follows the code.

## Model

| member | source | states |
|---|---|---|
| Grammar.ReceiveFollowsGrammar | src/http_engine.cpp:371-529 | for every stream and every cut, a reset memory response, the return value or exception, the redirect count and the URL are what the grammar of the whole stream says |
| Parser.ChunkingIndependence | src/http_engine.cpp:386-514 | two cuts of one stream give the memory sink the same return value or exception, response, redirect count and URL, whatever the response held before |
| Parser.ReceiveIsFeed | src/http_engine.cpp:387-518 | the loop over reads with the memory sink is one fold of the byte step over the stream, finished by completion or end of stream |
| Parser.FeedAppend | src/http_engine.cpp:390-512 | parser state carries over from one piece of input to the next |
| Parser.FeedIdle | src/http_engine.cpp:508-510 | a machine that is done or has returned ignores all further bytes |
| Grammar.FeedHead | src/http_engine.cpp:391-422 | version up to the first space, numeric status, description without CR, header block: the machine is at the last newline of the head with these values, or still inside the head, or has thrown |
| Grammar.FeedLines | src/http_engine.cpp:420-500 | a key ends at the first space, its colons are dropped, a newline in key position ends the block, and the values are inserted in order |
| Grammar.FeedLine | src/http_engine.cpp:478-500 | one complete header line inserts its key and value and returns to key position |
| Grammar.BodyIsExact | src/http_engine.cpp:501-507 | the body in memory is the first announced number of bytes, never more, and the machine is done exactly when it has them; without a length it is everything |
| Grammar.BodyEnds | src/http_engine.cpp:501-511 | the byte that completes the body ends the machine and the rest is ignored, from any body already held |
| Grammar.FinishAccepted | src/http_engine.cpp:459-477 | below 300, headers go under those already present and the body is cut at the announced length or runs to the end |
| Grammar.FinishEarly | src/http_engine.cpp:425-458 | from 300 on nothing of the body is looked at: redirect followed, redirect refused, or error reported |
| OrderedMap.InsertAllIsLeftBiased | src/http_engine.cpp:496 | repeated insertion keeps what was there and otherwise the first value of each key |
| OrderedMap.InOrder | src/http_engine.cpp:335-337 | iteration visits every key once, in ascending byte order |
| OrderedMap.LessIsLexicographic | src/http_engine.cpp:335-337 | the order of the keys is the lexicographic one |
| OrderedMap.LinesDetermineMap | src/http_engine.cpp:335-337 | the lines visited by an iterator determine the map |
| HeaderLoop.InsertHeaders | src/http_engine.cpp:464-470 | the setup loop gives the left-biased union and the converted length; when the length is no number it stops with the headers up to Content-Length |
| HeaderLoop.InsertHeader | src/http_engine.cpp:466-469 | one round of the setup loop |
| Text.CastPrinted | src/http_engine.cpp:405 | the int conversion reads back every printed 32-bit int |
| Text.CastIntExactly | src/http_engine.cpp:405 | the int conversion succeeds exactly for an optional sign with digits in the 32-bit range, and gives their value |
| Text.ClassMembers | src/http_engine.cpp:391-493 | the delimiters that the parsers look for, written out |
| RoundTrip.ResponseRoundTrip | src/http_engine.cpp:391-507 | a printed response below 300 with its printed length, or without one, gives back version, status, description, headers, length and body in any cut; bytes after an announced body do not matter |
| RoundTrip.PrintedLength | src/http_engine.cpp:467-468 | a printed 32-bit Content-Length announces its value, and a negative one that value plus 2 to the power of 64 |
| RoundTrip.PrintedHeadParses | src/http_engine.cpp:391-423 | a printed head is read back field by field, for every 32-bit status |
| RoundTrip.PrintedLinesParse | src/http_engine.cpp:478-500 | clean header lines are read back in order, whatever follows them |
| RoundTrip.HeaderMapRoundTrip | src/http_engine.cpp:335-337 | the lines `send()` prints for a clean map rebuild exactly that map in the receiving machine |
| Runs.RedirectTransparency | src/http_engine.cpp:433-458 | after followed redirects, a non-redirect answer gives the same memory response and outcome as a direct fetch of the last URL; the last request is the same text exactly when no proxy of an earlier URL stays, otherwise longer |
| Runs.TransparencyWithoutProxies | src/http_engine.cpp:433-458 | without proxies in the environment the last request is always the direct one |
| Witnesses.ProxyStaysOn | src/http_engine.cpp:163-206 | a redirect from https with a proxy to http without one: same response, longer last request |
| Runs.ConnectOutcome | src/http_engine.cpp:580-589 | after every normal end, from a reset response of either kind: the status is the last answer's if its head was complete, else 0; a 3xx status means spent budget or no location; version and received headers are filled in below 300 only, the description with every complete head; in memory, length, body and progress agree |
| Runs.SendFollowsGrammar | src/http_engine.cpp:294-356 | one answered request in terms of the grammar of the whole answer |
| Runs.RedirectsKeep | src/http_engine.cpp:432-450 | with either sink, along followed redirects only URL, Host and Content-Length entries, file state, addresses, proxy mode and counter change; the counter grows by one each, and the proxy mode is on once a request has gone through a proxy |
| Engines.ConnectIsBounded | src/http_engine.cpp:433-450 | whatever the servers answer, at most one request more than the remaining redirect budget is sent |
| Engines.AtMostSixRedirects | src/http_engine.cpp:433-435 | from a fresh engine at most six redirects are followed and seven requests sent |
| Engines.ConnectEnds | src/http_engine.cpp:583 | every run has an end, whatever the servers answer |
| Engines.NotSent | src/http_engine.cpp:287-289 | a URL without a match, or no connection: which exception leaves, and that no request is written |
| Runs.FollowsExactly | src/http_engine.cpp:425-450 | with either sink, another request follows exactly after a 3xx with Location, when at most five redirects were counted before |
| Runs.SixRedirectsExactly | src/http_engine.cpp:433-441 | where answers only redirect, exactly six are followed from a fresh engine, and the seventh is refused with its status |
| Runs.SixRedirectsFollowed | src/http_engine.cpp:583 | there is such a run |
| Witnesses.RedirectLoop | src/http_engine.cpp:433-441 | a server that redirects to itself is asked seven times |
| Engines.SendCountsRedirects | src/http_engine.cpp:433-450 | a followed redirect uses up one unit of the budget, and one request is sent |
| Engines.RedirectsCount | src/http_engine.cpp:583 | after n followed redirects the counter and the number of requests have grown by n |
| Engines.ConnectIsDetermined | src/http_engine.cpp:583 | first state and answers determine every hop of `connect()` and its end |
| FileSink.BytesAreConserved | src/http_response.cpp:188-220 | at every point of a run inside `receive()`, under any pattern of failed opens, file followed by memory is all body bytes received, and progress is their number |
| FileSink.EndKeepsBytes | src/http_engine.cpp:513-518 | the same at the end: completing the response, or the end of the stream, writes and drops nothing |
| FileSink.FlushConserves | src/http_response.cpp:188-195 | a flush moves bytes and loses none, whether or not the open succeeds |
| FileHead.ReceiveHead | src/http_engine.cpp:387-423 | with a file sink, the head is read as by the grammar, and the file is then as the flushes during the head have left it |
| FileContents.FileSinkContents | src/http_response.cpp:188-220 | the whole response at the end: the head's fields, what the file or, when no open call succeeds in time, memory holds, the reported size, the progress, and whether the file stays open, for every cut and every pattern of failed opens; all other files are unchanged |
| FileContents.DoneWhen | src/http_engine.cpp:504-515 | the transfer is completed, and the file closed, exactly when nothing was announced to come or one group alone has the announced length |
| FileContents.SecondTransferAppends | src/http_response.cpp:188-200 | after a transfer that leaves the file open, the next one into the same response appends its document |
| FileContents.OpensWhen | src/http_response.cpp:188-220 | the file is opened exactly when an open call succeeds before the announced length is in memory or with the read that brings it |
| FileContents.FileHoldsBody | src/http_engine.cpp:501-518 | what is stored is the announced body exactly when none or no less than what is sent was announced, or the first bytes that are together in memory bring all of it |
| FileContents.ReportedSizeIsStored | src/http_engine.cpp:516-518 | the reported size is the stored length exactly when it stayed in memory, or nothing followed the head, or the announced length came at once; otherwise it is 0 if no more than announced is sent |
| Witnesses.HeadText | src/http_engine.cpp:391-423 | the response head of the next two rows, written out |
| Witnesses.CutsDiffer | src/http_engine.cpp:504-506 | one stream of three bytes against an announced two: `receive()` stores two bytes for one cut, three for another |
| Witnesses.SizesDiffer | src/http_engine.cpp:516-518 | two bytes announced, sent and stored are reported as 0; three stored are reported as 2 |
| FileRedirect.HeadOnly | src/http_engine.cpp:425-458 | the file sink after an answer from status 300 on: redirect followed or answer reported, with the file as the flushes during the head left it |
| FileHead.EarlyFileIsOpen | src/http_response.cpp:197-220 | after a head the file is open exactly when it was, or an open call succeeded before the last read of the head; it is then new, empty and has the old name |
| FileRedirect.FileAfterRedirects | src/http_engine.cpp:443-450 | after any number of redirects the file is open exactly when some answer had such an open call; the first one named it, and no other file has changed |
| FileRedirect.DocumentPath | src/http_response.cpp:197-205 | where a run of `connect()` stores the document: in one new file, named by the URL of the first redirect that had an early open call, or else by the last URL; all other files are unchanged; and whether the file stays open |
| Runs.ResetIsReset | src/http_response.cpp:162-166 | a reset response is one that the classification is about; a file sink is closed, without name and path, and the disk is as before |
| Runs.ResetProtectsFiles | src/http_response.cpp:162-166 | a transfer after a reset stores in a new file named by a URL of the run, and every earlier file keeps its contents |
| Witnesses.WrongName | src/http_response.cpp:197-205 | a run in which the document of "g" is stored as "f" |
| FileName.FirstFree | src/http_response.cpp:197-205 | the search ends after at most as many steps as there are files, at the least unused index |
| FileName.FreePathIsLeast | src/http_response.cpp:201-205 | the path chosen is the bare name or `name.k` with the least free k, is unused, and is the only such path |
| FileName.FreePathByName | src/http_response.cpp:201-205 | the bare name exactly when it is unused, otherwise the name, a dot and the least unused number from 1 on, which is unique |
| Responses.OpenFileExactly | src/http_response.cpp:197-220 | the file that a successful open call creates, and that a failed one creates none |
| Witnesses.FirstNumber | src/http_response.cpp:203 | "f.1" when "f" exists |
| FileName.CandidatesDiffer | src/http_response.cpp:203 | different counters give different names |
| FileName.Pigeonhole | src/http_response.cpp:202 | k taken candidates are k different files |
| Url.SplitMatches | src/http_engine.cpp:137-143 | the pieces are in the groups' languages and join back to the URL up to a fragment; with parameters nothing is left over |
| Url.SplitIsFirstMatch | src/http_engine.cpp:137-143 | the scan succeeds exactly when the expression matches, and no match is tried before the one it returns |
| Url.SplitIsCanonical | src/http_engine.cpp:137-147 | the file piece has no slash, and no piece can be confused with its neighbour |
| Url.SplitJoined | src/http_engine.cpp:137-143 | splitting the join of such pieces returns them |
| Url.WordCharacters | src/http_engine.cpp:139-140 | the codes of the characters that a host may start with |
| Requests.FileNameIsLastSegment | src/http_response.cpp:169-183 | the name of the stored file is the last segment of the path that is requested; a URL that does not split leaves it |
| Requests.AbsoluteTargetRoundTrip | src/http_engine.cpp:147-161 | the target on the request line to a proxy splits into the URL with its defaults filled in, and makes the same target again |
| Requests.DirectRequest | src/http_engine.cpp:299-333 | without a proxy, a request starts with verb, path and parameters of the URL, and version |
| Requests.ProxiedRequest | src/http_engine.cpp:302-333 | through a proxy, with the scheme, host and explicit or default port in front |
| Requests.TargetIsInUrl | src/http_engine.cpp:137-143 | with a path, the direct target is the URL from behind host and port up to the fragment |
| Requests.DirectTargetReadsBack | src/http_engine.cpp:299-333 | the direct target is what a reader of the request finds |
| Requests.HttpAddress | src/http_engine.cpp:149-180 | an http URL: plain connection, port 80 by default, Host line, proxy variable |
| Requests.HttpsAddress | src/http_engine.cpp:181-206 | an https URL: TLS, port 443 by default, Host line, the other proxy variable |
| Requests.OtherAddress | src/http_engine.cpp:144-206 | any other scheme: only the path is taken from the URL |
| Witnesses.DirectText | src/http_engine.cpp:296-353 | a whole request, written out |
| Witnesses.ProxiedText | src/http_engine.cpp:296-353 | a whole request to a proxy, with both credentials, written out |
| Requests.CredentialsRoundTrip | src/http_engine.cpp:339-349 | decoding the token and splitting at the first colon recovers user and password exactly when the user has no colon |
| Witnesses.ColonCredentials | src/http_engine.cpp:339-343 | two pairs of user and password with one token |
| Requests.AuthorizationReadBack | src/http_engine.cpp:339-343 | in the header block of a request, the credentials line is intact exactly up to 54 bytes of credentials |
| Requests.ProxyAuthorizationReadBack | src/http_engine.cpp:344-349 | the proxy's line holds the engine's credentials for the proxy, intact exactly up to 54 bytes |
| Requests.NoProxyAuthorization | src/http_engine.cpp:344-349 | no such line without proxy mode or without a user for the proxy |
| Witnesses.LongCredentials | src/http_engine.cpp:339-343 | 55 bytes of credentials whose line is broken |
| Requests.TokenIsOneLine | src/http_engine.cpp:36-44 | a Basic token holds no CR or LF exactly up to 54 bytes of credentials |
| Requests.RequestHeadersParse | src/http_engine.cpp:335-353 | the header lines of a request are read back in order exactly when they are clean, with one empty line too many left before the body |
| Requests.RequestReadsBack | src/http_engine.cpp:296-353 | the whole request text reads back into verb, target, version, header lines and body exactly when the words have no blank and no line end, the caller's headers are clean and the credentials are short |
| Base64.RoundTrip | src/http_engine.cpp:36-44 | removing newlines and decoding by section 4 of RFC 4648 returns every byte string |
| Base64.Layout | src/http_engine.cpp:36-43 | number of symbols, padding and newlines, newline positions, line length, and the one-line condition |
| Base64.BreakLinesLayout | src/http_engine.cpp:36-38 | newlines stand exactly after every 72 symbols that are followed by another |
| Base64.SymbolsOfAlphabet | src/http_engine.cpp:36-38 | the symbols are those of section 4 of RFC 4648, in order |
| Responses.HttpResponse.constructor | src/http_response.cpp:33-54 | the fields of a new response of either kind |
| Responses.HttpResponse.Reset | src/http_response.cpp:162-167 | the values of `AfterReset`, which `Responses.ResetExactly` writes out |
| Responses.ResetExactly | src/http_response.cpp:43-54 | the defaults; a file sink is closed; headers to send, credentials and disk stay |
| Responses.HttpResponse.SetHeaders | src/http_response.cpp:80-82 | a header that is present is not replaced |
| Responses.HttpResponse.SetBody | src/http_response.cpp:114-118 | one byte more in the body and in the progress, nothing else |
| Responses.HttpResponse.SetUrl | src/http_response.cpp:169-186 | the URL, and for a file sink the file piece as the name |
| Responses.HttpResponse.Flush | src/http_response.cpp:188-195 | the body moves to the end of the file, or stays when the file cannot be opened |
| Responses.HttpResponse.OpenFile | src/http_response.cpp:197-220 | the search loop finds the first free path, and the file is created there when the system allows it |
| Responses.HttpResponse.CloseFile | src/http_response.cpp:221-227 | closed, with path and name cleared |
| Responses.HttpResponse.Completed | src/http_response.cpp:229-232 | a file sink is closed, a memory response unchanged |
| Responses.CompletedExactly | src/http_response.cpp:229-232 | a file sink is closed and forgets name and path, a memory response is unchanged |
| HttpEngines.HttpEngine.constructor | src/http_engine.cpp:56-65 | the state of a new engine, with a new memory response |
| HttpEngines.HttpEngine.Reset | src/http_engine.cpp:81-92 | the defaults, the redirect counter at 0 and the response reset; proxy credentials stay |
| HttpEngines.HttpEngine.SockGet | src/http_engine.cpp:108-112 | the next read is in the first bytes of the buffer, or the stream has ended |
| HttpEngines.HttpEngine.IsAcceptable | src/http_engine.cpp:531-545 | a status may go on exactly below 400 |
| HttpEngines.HttpEngine.Report | src/http_engine.cpp:427-429 | status and description are set and the response is completed |
| HttpEngines.HttpEngine.Redirect | src/http_engine.cpp:433-458 | counter, limit, location, and the new URL |
| HttpEngines.HttpEngine.FillIn | src/http_engine.cpp:459-470 | the head in the response, and whether its length could be read |
| HttpEngines.HttpEngine.SetUp | src/http_engine.cpp:459-477 | the response before the body, and whether a body is awaited |
| HttpEngines.HttpEngine.EndOfHeaders | src/http_engine.cpp:423-477 | the end of the header block: error, redirect or body |
| HttpEngines.HttpEngine.Consume | src/http_engine.cpp:391-507 | one round of the inner loop is one step of the machine |
| HttpEngines.HttpEngine.Walk | src/http_engine.cpp:389-512 | the inner loop feeds exactly the bytes that were read, and looks at no others |
| HttpEngines.HttpEngine.Receive | src/http_engine.cpp:371-529 | the nested loops are the run of the machine over the reads, with a flush after each |
| HttpEngines.HttpEngine.Address | src/http_engine.cpp:144-190 | path, connection kind, host, target, Host header and proxy use of a URL |
| HttpEngines.HttpEngine.AddressAs | src/http_engine.cpp:157-178 | the fields for one scheme with its default port |
| HttpEngines.HttpEngine.Print | src/http_engine.cpp:296-353 | the whole request text |
| HttpEngines.HttpEngine.PrintLine | src/http_engine.cpp:297-333 | the request line, absolute with a proxy |
| HttpEngines.HttpEngine.PrintHeaders | src/http_engine.cpp:335-337 | the header lines of the map in iteration order |
| HttpEngines.HttpEngine.PrintOwnHeaders | src/http_engine.cpp:339-352 | the credentials of server and proxy, and the two fixed lines |
| HttpEngines.HttpEngine.SendRequest | src/http_engine.cpp:294-355 | the Content-Length entry, and the request text that is sent |
| HttpEngines.HttpEngine.Exchange | src/http_engine.cpp:294-356 | request sent and response received |
| HttpEngines.HttpEngine.Send | src/http_engine.cpp:132-357 | no match, no connection, or one exchange with the next answer |
| HttpEngines.HttpEngine.FollowOne | src/http_engine.cpp:583 | one round of the redirect loop extends the chain of hops or ends it, and uses up budget |
| HttpEngines.HttpEngine.Connect | src/http_engine.cpp:580-589 | the loop ends, having followed a chain of redirects and one last request |
| HttpEngines.HttpEngine.StartTransfer | src/http_engine.cpp:636-643 | the same with the response that the caller brings |

## Left out

- Sockets, name resolution, TLS, the CONNECT exchange and the choice of an endpoint: a request either gets no connection or a stream of reads.
- Socket state between calls and `disconnect()`: each request has its own connection.
- Read errors other than the end of the stream: they only pass through `receive()`.
- Threads, futures, callbacks and the mutex: no protocol of their own; `StartTransfer` runs the transfer in place.
- The `arguments` map: nothing fills it, so the request has no generated parameters.
- `clear()`, `setHeader`, `setHTTPAuth`, `setProxyAuth`, `getHeader` and the other getters: only easy members.
- A URL that the expression does not match: the source then indexes an empty vector; the model ends the run with the failure `NoUrlMatch`. A match that starts at a later line of the URL is not modelled.
- The address of the proxy: only whether a proxy variable is set is modelled.
- Url.SplitIsFirstMatch: speaks of the order of whole groups, from left to right; the two parts of the host group and the repetitions inside the path group are taken together, as no shorter choice inside a group can be followed by a match of the whole.
- Runs.RedirectTransparency: for the memory sink from an empty body, and for a last URL with scheme http or https; another scheme keeps the addresses and the Host entry of the hop before. What redirects do to a file sink is the subject of `FileRedirect.DocumentPath`.
- Grammar.ReceiveFollowsGrammar: for a response whose body is empty, as after `reset()`; a body left over from an earlier transfer counts towards the announced length.
- Responses.HttpResponse.Flush: a write to an open file succeeds; the source throws on a failed one, and how much of the body is then on disk is up to the system.
- Responses.HttpResponse.OpenFile: the counter is unbounded, and files come and go only through the sink itself.
- Text.CastPrinted: the locale is the C locale.
- Lengths and counters are unbounded; only the conversion of a negative Content-Length to an unsigned size wraps around.
- Logging, the demonstration program, the documentation script and the build files.
