# http-server-v1: a verified model

A model in Dafny of the C++ server in `http-server-v1`, and proofs about it. Three parts of the
server are covered.

**Requests on one connection.** `HttpConn` appends whatever `recv` brings to a buffer, decides after
every chunk whether a request is ready, too large or still incomplete, answers, sends in pieces,
cuts the request off the buffer and goes on with what is left. Three scanners read the same buffer:
the parser, a quick scan for Content-Length that decides how much to cut, and a raw search for the
session cookie. `framing.dfy`, `requests.dfy` and `sessions.dfy` give each scanner a meaning in terms
of header lines and show the loops equal to it; `acceptance.dfy` and `letters.dfy` say which lines and
spellings are accepted, and `validation.dfy` which answer a request gets, both from the bytes alone;
`messages.dfy` and `responses.dfy` do the same for what is printed; `http_conn.dfy` is the class;
`reading.dfy` is about chunks, `outcomes.dfy` about what each result of recv and send leads to. `cycle.dfy` makes one
connection, from accept to close, a state machine over arbitrary chunks, partial sends, pauses,
drops, page handlers and files, with write events and pipeline tasks interleaved as epoll and the
workers may do it. `buffer_bounds.dfy`, `wire.dfy` and `serving.dfy` prove what holds over all its runs,
`clients.dfy` is the client at the other end, and `notable_runs.dfy` shows runs in which something the
server promises fails.

**Threads.** `thread_pool.dfy` and `sql_pool.dfy` hold the two pools: the sections executed under a
mutex as methods of a class, and a state machine that interleaves those sections with undelivered
notifications, spurious wake-ups and callers. `server.dfy` puts event loop, workers, `users_mutex_`
and database guards together. `conn_table.dfy` is the table of connections under all interleavings.

**Text.** `template.dfy`, `escape.dfy`, `form.dfy` and `article_page.dfy` show the placeholder,
escaping, URL and form loops equal to simple definitions, and invertible.

Conventions. A `char` stands for one byte. The "C" locale is assumed. Sums of a header end and a
Content-Length are taken modulo 2^64, as `size_t` does; everything else is unbounded. The results of
`recv` and `send`, file contents, page handlers and the choices of the scheduler are inputs; `recv`
brings at most 4096 bytes. Methods follow the loops and branches of the source, exits that turn out
to be dead included (they hold `assert false`), and their contracts name a specification function;
the lemmas are about those functions.

Where the code and what is written beside it differ, the model follows the code:

- The comments at `webserver/webserver.cpp:197`, `214` and `321` say the generation test tells a reused
  descriptor from the old one. It never does (`ConnTable.GenerationNeverRejects`), because closing
  erases the entry that held the count.
- `http-server-v1/README.md:14` says the event loop is edge-triggered; the code registers plain
  EPOLLIN (`webserver/webserver.cpp:179`). The model depends on neither for reading; for writing it takes EPOLLOUT to be level-triggered, as registered.
- The comment at `http/template.hpp:55` lists quotes, backslashes and newlines for `escape_json`; the
  code also escapes carriage returns and tabs, and no other control character
  (`Escapes.JsonWellFormedIff` says when that is enough).
- Field names are compared without regard to case by both header readers, but the session lookup
  finds its cookie only under names that end in `Cookie`, spelled so (`Sessions.TokenIsFoundIff`).
- Pages are filled one placeholder after the other. A value that contains a later placeholder is
  filled in turn (`ArticlePage.TitleCanBeFilled`); escaping does not prevent it
  (`Escapes.EscapersKeepBraces`).
- `handle_write` leaves EPOLLOUT asked for when it queues a pipelined request
  (`webserver/webserver.cpp:291-292`, `313-349`), and a pipeline task asks for it after releasing the lock
  (`webserver/webserver.cpp:331`). A write event that then finds no response makes the server close
  unannounced. A queued request is lost in one of two ways: it is closed away unprocessed, or, if its task
  runs after the decision to close and before `close_conn` has the lock again
  (`webserver/webserver.cpp:299-300`, `341-356`), it is processed and its answer never sent.
  `Wire.AnnouncedIff` and `Wire.ClientSeesAnswers` have the exact conditions, `NotableRuns.EarlyWriteRun`,
  `NotableRuns.LateRearmCloses` and `NotableRuns.LateReadHidesAnswer` are such runs.
- On the pipeline path a header section and a Content-Length that sum up to 2^64 make no progress
  (`BufferBounds.ProgressIff`): the request is answered again after every answer
  (`NotableRuns.AnsweredWithoutEnd`). Larger sums cut inside the header section, and a POST handler gets a
  body that is cut off (`BufferBounds.CompletenessIsExactIff`, `BufferBounds.PostBodyIsWholeIff`,
  `NotableRuns.PostBodyCutOff`).
- The session token is taken from the first cookie that ends in `session_token`, whatever stands before
  that in its name (`Sessions.TokenReadBack`).
- An init that fails after a shutdown leaves the connections it has opened in the stopped pool
  (`SqlPools.AllClosedIff`, `SqlPools.HalfInitLeaks`).
- A body that is not a POST's is not waited for. It can be left behind and read as a request
  (`Serving.CutIsExactIff` says exactly when; `NotableRuns.BodyIsServedRun` is such a run).

## Model

| member | source | states |
|---|---|---|
| Text.TrimBlanks | http-server-v1/http/http_conn.cpp:1007-1014 | The two erase loops remove the blanks at both ends of a field value |
| Text.TrimCut | http-server-v1/http/http_conn.cpp:1007-1014 | What was trimmed is only blanks, at the ends: blanks, value and blanks give back the text |
| Text.TrimIs | http-server-v1/http/http_conn.cpp:1007-1014 | Blanks around a value without blank ends are taken off, all of them and nothing else; blank means space or tab |
| Text.WordsOfThree | http-server-v1/http/http_conn.cpp:970-976 | A line of three words separated by spaces is read as exactly those three, with no fourth |
| Text.WordsAre | http-server-v1/http/http_conn.cpp:970-976 | The words of a line are the runs between the six white-space characters, in order |
| Letters.LowerCharIs | http-server-v1/http/http_conn.cpp:24-28 | Each of the 26 capitals becomes its small letter, and every other byte stays |
| Letters.ToLowerIff | http-server-v1/http/http_conn.cpp:24-28 | Two texts are the same in lower case if and only if they differ in nothing but the case of letters |
| Letters.LowerIsKept | http-server-v1/http/http_conn.cpp:24-28 | Lower-casing leaves a text as it is if and only if it has no capitals |
| Decimal.ShowRoundTrip | http-server-v1/http/http_conn.cpp:1063 | A printed length is a digit string whose value is the length |
| Decimal.ValueRoundTrip | http-server-v1/http/http_conn.cpp:1029-1030 | Digit strings without leading zero are exactly the printed ones: printing what was read gives them back |
| Framing.NextLine | http-server-v1/http/http_conn.cpp:985-1042 | One round of either header loop, from any line start: the CRLF exists at or before the header end, no field line is empty, and the next round starts before the header end or exactly two bytes behind it |
| Framing.LinesCoverHead | http-server-v1/http/http_conn.cpp:985-1043 | The lines the loops visit, put together, are the header section: none skipped, none seen twice, none empty |
| Framing.HeadEndsAfterLines | http-server-v1/http/http_conn.cpp:960-970 | A header section printed from non-empty CRLF-free lines ends where those lines end, and exactly they are read back |
| Framing.HeadStable | http-server-v1/http/http_conn.cpp:176-183 | The header end and the header lines never change when more bytes arrive, and are found as soon as the four bytes are there |
| Framing.ScanLine | http-server-v1/http/http_conn.cpp:43-61 | What the quick scan does with a line: it returns on the first numeric Content-Length, with 0 on overflow |
| Framing.ExtractContentLength | http-server-v1/http/http_conn.cpp:34-65 | The quick scan computes the first numeric Content-Length among all header lines; its exit for a missing or misplaced CRLF is dead |
| Framing.FramedInStream | http-server-v1/http/http_conn.cpp:885-893 | A message that announces its own length is complete, and of that length, whatever follows it |
| Framing.DrainConcat | http-server-v1/http/http_conn.cpp:885-926 | Any messages that announce their own lengths, put end to end with an incomplete tail, are taken apart into those messages and that tail |
| Requests.ReadField | http-server-v1/http/http_conn.cpp:996-1040 | One field line in the parser: what it rejects, and which field it fills from what |
| Requests.ReadFields | http-server-v1/http/http_conn.cpp:982-1043 | The header loop folds the field lines in order; its exits for a missing or misplaced CRLF and for an empty line are dead, and it stops exactly two bytes behind the header end |
| Requests.AbsorbAllIs | http-server-v1/http/http_conn.cpp:1015-1042 | The fold, told without a loop: it accepts exactly if every line passes and all Content-Length fields agree, and then holds the last Host, the last Connection and the common length |
| Requests.ParseRequest | http-server-v1/http/http_conn.cpp:957-1052 | The parser accepts exactly buffers with a header end, three words in the first line and acceptable fields, returns what the fields say and the body as far as it is there, and the empty request otherwise |
| Requests.BodyIsAvailable | http-server-v1/http/http_conn.cpp:1045-1050 | The body of an accepted request is what stands behind the header section, as far as it is announced and there |
| Requests.RefusedIsEmpty | http-server-v1/http/http_conn.cpp:960-1040 | A refused request has no method, no length and no other field |
| Acceptance.LineIsOkIff | http-server-v1/http/http_conn.cpp:996-1040 | A field line, as written with name, colon, blanks and value, passes if and only if the name is not empty, and for Content-Length in any spelling the value is digits below 2^64 |
| Acceptance.LineIsWritten | http-server-v1/http/http_conn.cpp:996-1014 | Every line with a colon is a name, a colon, blanks, a value without blank ends, and blanks, so the two rows around cover all lines |
| Acceptance.HeadIsAcceptedIff | http-server-v1/http/http_conn.cpp:957-1043 | A header section is accepted if and only if the first line has three words, all field lines pass, and no two Content-Length fields differ in number |
| Acceptance.ColonlessIsRefused | http-server-v1/http/http_conn.cpp:996-999 | One field line without a colon makes the request refused |
| Acceptance.ScanIs | http-server-v1/http/http_conn.cpp:34-65 | The quick scan returns the first numeric Content-Length, 0 if it is 2^64 or more or there is none, whether or not the request is accepted |
| Acceptance.SpellingDoesNotMatter | http-server-v1/http/http_conn.cpp:1015-1019 | Writing field names, or the value of Connection, in another case changes neither the parsed request nor the scanned length |
| Requests.LengthLineHasFewWords | http-server-v1/http/http_conn.cpp:34-65 | A line that passes for a numeric Content-Length has at most two words, so the quick scan cannot take an accepted request line for one |
| Requests.ReadersAgree | http-server-v1/http/http_conn.cpp:34-65 | Whenever the parser accepts, the quick scan over all lines, the request line included, returns the length of the parser |
| Requests.ParseStable | http-server-v1/http/http_conn.cpp:957-1052 | More bytes change neither acceptance nor any field nor the length to be cut, only the body |
| Messages.ParsePrinted | http-server-v1/http/http_conn.cpp:957-1052 | Any well-formed request, printed and followed by anything, is accepted and read as itself, body included |
| Messages.PrintedIsFramed | http-server-v1/http/http_conn.cpp:885-893 | Any well-formed request announces exactly its own length to the quick scan |
| Messages.PipelineRoundTrip | http-server-v1/http/http_conn.cpp:885-926 | Any list of well-formed requests followed by any incomplete tail is recovered in order, each parsed as itself when its turn comes, each round removing at least four bytes, and exactly the tail is left |
| Responses.RenderIsFramed | http-server-v1/http/http_conn.cpp:1055-1070 | Every response, redirects included, that fits a size_t announces exactly its own length to the server's own scan |
| Clients.ResponseIsReceived | http-server-v1/http/http_conn.cpp:1055-1070 | A client with numbers of any size, reading by its own first fields, takes each response, whatever follows, for exactly its extent, with status line, body, close or keep-alive, content type, and the cookie if there is one; a redirect as an empty 302 with its location |
| Clients.PartIsNotReceived | http-server-v1/http/http_conn.cpp:1055-1070 | No part of a response is taken for a whole one |
| Sessions.SessionToken | http-server-v1/http/http_conn.cpp:328-347 | The raw search of the buffer computes the token in the first header line that says "Cookie: "; its exit for an endless cookie line is dead |
| Sessions.TokenStable | http-server-v1/http/http_conn.cpp:328-336 | Bytes behind the header section, pipelined requests included, never change whose session a request belongs to |
| Sessions.FirstCookieDecides | http-server-v1/http/http_conn.cpp:332-337 | The first header line with the cookie text decides, even if a later one holds a token |
| Sessions.NoKeyNoToken | http-server-v1/http/http_conn.cpp:340-342 | A cookie line without the key gives no token |
| Sessions.PrintedToken | http-server-v1/http/http_conn.cpp:328-347 | The token of a printed request is determined by its own lines, whatever follows |
| Sessions.TokenIsFoundIff | http-server-v1/http/http_conn.cpp:332-333 | For a request with one field that holds the token: it is found if and only if the name of the field ends in Cookie, spelled so |
| Sessions.TokenReadBack | http-server-v1/http/http_conn.cpp:339-347 | The cookie a login hands out, with others before and behind it, is read back, unless one before it holds the same text; then that one is read. An empty token is none |
| HttpConnection.HttpConn.constructor | http-server-v1/http/http_conn.cpp:71-76 | A new connection has empty buffers |
| HttpConnection.HttpConn.Clear | http-server-v1/http/http_conn.cpp:139-166 | init and close_conn leave empty buffers and no keep-alive |
| HttpConnection.HttpConn.AfterChunk | http-server-v1/http/http_conn.cpp:176-192 | The verdict on the buffer after a chunk: the five outcomes and their limits |
| HttpConnection.HttpConn.ReadOnce | http-server-v1/http/http_conn.cpp:169-203 | Chunks are appended until the first verdict, end of stream, EAGAIN or error; the buffer keeps all of them |
| HttpConnection.HttpConn.Write | http-server-v1/http/http_conn.cpp:869-882 | Partial sends advance bytes_sent_ by what was taken; what goes out is the next stretch of write_buf_, and READY means all of it |
| HttpConnection.WriteFrom | http-server-v1/http/http_conn.cpp:869-882 | Sending never goes back nor beyond the end, and returns READY exactly when everything is out |
| HttpConnection.HttpConn.SetReply | http-server-v1/http/http_conn.cpp:92-98 | A reply replaces the output buffer and restarts it, with the connection field taken from keep_alive_ |
| HttpConnection.HttpConn.Set431 | http-server-v1/http/http_conn.cpp:130-135 | A too large header section is answered by 431 and close |
| HttpConnection.HttpConn.Set413 | http-server-v1/http/http_conn.cpp:123-128 | A too large body is answered by 413 and close |
| HttpConnection.HttpConn.HandlePost | http-server-v1/http/http_conn.cpp:279-292 | The two guards answer 400; otherwise the handler gets the body cut from the buffer |
| HttpConnection.HttpConn.Process | http-server-v1/http/http_conn.cpp:839-866 | Validation, keep-alive and dispatch give the specified answer and connection field; the result is always true |
| HttpConnection.HttpConn.HasCompleteRequest | http-server-v1/http/http_conn.cpp:885-893 | True exactly if a header section is there and as many bytes as the quick scan asks for |
| HttpConnection.HttpConn.ResetForNextRequest | http-server-v1/http/http_conn.cpp:904-926 | Cuts the answered request off the front, or everything if there is no header end, and clears the output |
| HttpConnection.KeptMeansAccepted | http-server-v1/http/http_conn.cpp:845-850 | The connection is kept only after an accepted request, so the reset cuts with the length of the parser |
| HttpConnection.ValidMeansAccepted | http-server-v1/http/http_conn.cpp:928-953 | Only accepted requests pass validation |
| Validation.AnswerToPrinted | http-server-v1/http/http_conn.cpp:839-866 | Any well-formed request, whatever follows it, gets 405 exactly if its method is neither GET nor POST, the page handler exactly if besides its version is HTTP/1.1 with a Host or HTTP/1.0, its URL begins with a slash and its Connection is absent, close or keep-alive in any case, and 400 otherwise |
| Validation.AnswerToIs | http-server-v1/http/http_conn.cpp:928-953 | The same for the answers that whole runs are stated with |
| Validation.RefusedIsBad | http-server-v1/http/http_conn.cpp:928-933 | A refused request gets 400, and the connection is not kept |
| Validation.KeptIff | http-server-v1/http/http_conn.cpp:845-850 | HTTP/1.1 is kept unless Connection says close in any case, any other version only if it says keep-alive |
| HttpConnection.ResetWithoutHead | http-server-v1/http/http_conn.cpp:904-906 | A reset without a header end empties the buffer, and such a buffer is never kept after |
| HttpConnection.ResetTakesOne | http-server-v1/http/http_conn.cpp:904-917 | A reset on a complete request removes exactly one message of the pipeline; if the length it computes is 0 it changes nothing, and the request passes for complete again |
| Reading.FeedIsReadOnce | http-server-v1/http/http_conn.cpp:169-203 | Calling read_once again after each EAGAIN is the same as one uninterrupted reading of the chunks |
| Reading.DecideOnPrefix | http-server-v1/http/http_conn.cpp:176-192 | The verdict on any part of a stream, told from the header end and the fields of the whole stream |
| Reading.ChunksDoNotMatter | http-server-v1/http/http_conn.cpp:169-203 | With a header end at most HEADLIMIT - 3: two ways of cutting a stream into chunks, with any pauses, that both reach a verdict reach the same one with the same fields, and for POST the same body |
| Reading.WholeBody | http-server-v1/http/http_conn.cpp:1045-1050 | Once header section and body are there, later bytes change nothing in the parsed request |
| Reading.LongHeadIsRefused | http-server-v1/http/http_conn.cpp:177-182 | With a header end beyond HEADLIMIT, or none, HEAD_TOO_LARGE is the only verdict |
| Reading.WindowSplits | http-server-v1/http/http_conn.cpp:177-182 | For each complete stream with a header end in the last three positions up to HEADLIMIT there are chunkings that refuse it and chunkings that do not |
| Reading.VerdictDependsOnChunksIff | http-server-v1/http/http_conn.cpp:169-203 | The verdict on a complete stream depends on the chunking if and only if the header end is in those three positions |
| Cycle.ReadTask | http-server-v1/webserver/webserver.cpp:206-245 | The read task turns the connection into the state, and takes the decision to close or to write, that the specification says |
| Cycle.PipelineTask | http-server-v1/webserver/webserver.cpp:313-332 | The same for the pipeline task; its branch that closes is dead |
| Cycle.WriteEvent | http-server-v1/webserver/webserver.cpp:267-300 | The same for the locked part of handle_write: wait, close, read again or queue the next request; and the bytes put on the wire |
| Outcomes.WriteOutcome | http-server-v1/http/http_conn.cpp:869-882 | Sending grows by the bytes taken up to the first result that takes none, never beyond the end; short of the end it pauses exactly on EAGAIN or for want of results and fails exactly on an error or a send of 0 |
| Outcomes.PauseKeepsConnection | http-server-v1/webserver/webserver.cpp:275-279 | A response half sent when the socket is full goes on later: the connection is kept and nothing is lost |
| Outcomes.FailedOnlyAfterFailure | http-server-v1/webserver/webserver.cpp:275-277 | In every run a connection is given up on sending only after a send has really failed |
| Outcomes.ReadOutcome | http-server-v1/http/http_conn.cpp:169-203 | read_once takes chunks up to the first verdict or the first result without bytes, and returns what that result says |
| Outcomes.ReadTaskOutcome | http-server-v1/webserver/webserver.cpp:218-235 | What the read task does with it: wait, answer, refuse with 431 or 413 and close, or give the connection up |
| Outcomes.EndedOnlyAfterEnd | http-server-v1/webserver/webserver.cpp:219-220 | In every run a read task gives a connection up only after the end of the stream or an error |
| Cycle.ReadGrows | http-server-v1/http/http_conn.cpp:169-203 | read_once only ever appends, and returns a verdict that its last buffer justifies |
| Cycle.EarlyDecides | http-server-v1/webserver/webserver.cpp:275-299 | handle_write on a connection without a response, be it queued or waiting, decides to close it: the empty output counts as sent and keep-alive was reset; nothing else changes before close_conn |
| Cycle.DecidedCloses | http-server-v1/webserver/webserver.cpp:341-363 | Once decided, only close_conn ends the connection, whatever tasks run before it, and nothing happens after |
| Cycle.ConnStaysOk | http-server-v1/webserver/webserver.cpp:286-349 | In every run: nothing is buffered for output without a response, a response is never stranded because EPOLLOUT has been or will be asked for, and a queued request leaves it asked for |
| BufferBounds.LeftoverIsSmall | http-server-v1/http/http_conn.cpp:169-203 | The chunk that completes a request holds all that will be left after the cut: less than 4096 bytes |
| BufferBounds.ReadKeepsBounds | http-server-v1/http/http_conn.cpp:169-203 | From a buffer without verdict read_once stays within HEADLIMIT + 4 + BODYLIMIT - 1 + 4096 bytes, and pauses only on one without verdict |
| BufferBounds.BuffersAreBounded | http-server-v1/webserver/webserver.cpp:288-298 | In every run: the buffer bound above, the smaller one while waiting, and at most 4095 bytes left by a reset into the pipeline |
| BufferBounds.PostPassesGuards | http-server-v1/http/http_conn.cpp:279-290 | On the read path and on the pipeline path a valid POST passes both guards |
| BufferBounds.PostBodyIsWholeIff | http-server-v1/http/http_conn.cpp:286-292 | The body a POST handler gets has exactly the announced length if and only if the size_t sum does not wrap; on the read path it never does |
| BufferBounds.AnsweredWhenReady | http-server-v1/webserver/webserver.cpp:211-236 | In every run, every answer but 413 and 431 is to a buffer that was ready, is the specified answer, and decides keep-alive as specified |
| BufferBounds.PostGuardsAreDead | http-server-v1/http/http_conn.cpp:279-292 | In every run, no POST is answered by the 400 guards: it is always the page handler, on the body cut from the buffer |
| BufferBounds.CompletenessIsExactIff | http-server-v1/http/http_conn.cpp:885-893 | has_complete_request is right about a buffer if and only if its size_t sum does not wrap; if it wraps, the request passes for complete and the cut falls inside the header section |
| BufferBounds.ProgressIff | http-server-v1/http/http_conn.cpp:904-917 | A reset on a complete request makes the buffer shorter if and only if header section and length do not sum up to exactly 2^64; then it stays as it is |
| Wire.WireFidelity | http-server-v1/webserver/webserver.cpp:267-300 | In every run, for any partial sends, pauses, drops, early write events and tasks between a decision to close and close_conn, the wire holds the responses in order, none repeated or mixed, and at most the last one missing or cut short |
| Wire.WholeReplies | http-server-v1/http/http_conn.cpp:1055-1070 | A client gets from the wire exactly the responses that are out whole |
| Wire.ClientSeesAnswers | http-server-v1/webserver/webserver.cpp:275-298 | In every run an independent client gets all answers but at most the last, in order, with status lines, bodies, types, locations and cookies, and at most the last says close; when the server has closed of its own accord, a processed request stays unanswered if and only if its task ran between an early decision and close_conn |
| Wire.AnnouncedIff | http-server-v1/webserver/webserver.cpp:275-299 | The server closes, or has decided to close, of its own accord exactly when a response that says close is out whole, if and only if handle_write never ran without a response to send; if it did, every answer that went out had kept the connection |
| Serving.ReadAsItself | http-server-v1/http/http_conn.cpp:839-866 | A buffer that starts with a request and goes on with the stream is read, answered and cut as that request, session included |
| Serving.ReadyHolds | http-server-v1/http/http_conn.cpp:176-192 | On a part of a stream of such requests the server acts only once the next request is there whole, and never refuses it |
| Serving.StaysFaithful | http-server-v1/webserver/webserver.cpp:288-298 | In every run on such a stream the cut pieces are the requests in order, and pieces and buffer together are all that was received |
| Serving.ServesThePipeline | http-server-v1/webserver/webserver.cpp:211-236 | In every run on such a stream the i-th answer is the answer of the site to the i-th request, the connection is kept exactly if that request asks for it, nothing is unanswered when the server waits with everything received, and when it has closed of its own accord the last request answered asked for that, except exactly after an early write event, when every request whose answer went out had asked to go on |
| Serving.CutIsExactIff | http-server-v1/http/http_conn.cpp:186-191 | A request within the limits is cut off whole under every chunking if and only if it is a POST or has no body |
| Serving.WholeWhenReady | http-server-v1/http/http_conn.cpp:186-191 | A POST, or a request without body, is there whole whenever read_once is ready |
| Serving.HeadAlone | http-server-v1/http/http_conn.cpp:186-191 | Any other request has a chunking after which its body is left behind |
| NotableRuns.EarlyWriteLosesRequest | http-server-v1/webserver/webserver.cpp:286-298 | For any two kept requests in one chunk: a write event before the second one is processed makes the server close unannounced, and if close_conn comes before the task, the second request, received whole, is not answered |
| NotableRuns.LateTaskHidesAnswer | http-server-v1/webserver/webserver.cpp:313-342 | If the task comes before close_conn, the second request is processed by its page handler, its answer is never sent, and the server closes |
| NotableRuns.EarlyWriteRun | http-server-v1/webserver/webserver.cpp:313-349 | Both outcomes for two printed requests |
| NotableRuns.TaskFirstAnswersBoth | http-server-v1/webserver/webserver.cpp:313-332 | The same chunk with the second task first: both are answered and the server waits for more |
| NotableRuns.LateRearmCloses | http-server-v1/webserver/webserver.cpp:330-348 | A pipeline task that asks for EPOLLOUT after the event loop has gone back to EPOLLIN: the next write event closes a connection that was to be kept |
| NotableRuns.LateReadHidesAnswer | http-server-v1/webserver/webserver.cpp:206-236 | In that case a read task queued before still takes in and processes a third request, whose answer is never sent |
| NotableRuns.AnswersForever | http-server-v1/http/http_conn.cpp:885-926 | A queued request of which nothing is cut off is answered as often as one likes, without another byte received |
| NotableRuns.AnsweredWithoutEnd | http-server-v1/http/http_conn.cpp:885-926 | A run from the start of a connection, for every number of rounds, in which a pipelined request of 65 bytes is answered that often |
| NotableRuns.PostBodyCutOff | http-server-v1/http/http_conn.cpp:286-292 | A run in which a POST handler gets an empty body for an announced length of almost 2^64 |
| NotableRuns.LowerCaseCookieIsMissed | http-server-v1/http/http_conn.cpp:332-333 | The same cookie under two spellings of the field name: one is found, the other is not |
| NotableRuns.BodyIsServed | http-server-v1/http/http_conn.cpp:186-192 | For a request other than POST whose body is a printed kept request, with head and body in two chunks: the body is left behind, read as a request and answered as one |
| NotableRuns.BodyIsServedRun | http-server-v1/http/http_conn.cpp:186-192 | Such a run, for a printed GET within a GET |
| ThreadPools.ThreadPool.constructor | http-server-v1/thread_pool/thread_pool.cpp:6-14 | An empty queue with its bound, not stopping |
| ThreadPools.ThreadPool.Enqueue | http-server-v1/thread_pool/thread_pool.cpp:22-37 | An empty function, a stopping pool and a full queue are refused and change nothing; otherwise it goes to the end of the queue |
| ThreadPools.ThreadPool.WorkerSection | http-server-v1/thread_pool/thread_pool.cpp:60-70 | A worker with the mutex waits, returns, or takes the first task: which, and with what queue left |
| ThreadPools.ThreadPool.BeginShutdown | http-server-v1/thread_pool/thread_pool.cpp:40-45 | The first call sets stopping_, later ones change nothing |
| ThreadPools.Safe | http-server-v1/thread_pool/thread_pool.cpp:22-78 | In every reachable state: conservation and order of tasks, the bound, and the wake-up invariant, before and after shutdown |
| ThreadPools.NoLostWakeup | http-server-v1/thread_pool/thread_pool.cpp:22-37 | Before shutdown, under any interleaving and spurious wake-ups: no worker sleeps, or the queued tasks are at most undelivered notifications plus awake idle workers; no worker is ever lost, throwing tasks included |
| ThreadPools.QueueIsFifo | http-server-v1/thread_pool/thread_pool.cpp:57-78 | The tasks taken followed by the queue are the tasks accepted, every taken task is being run or has been run, and the queue keeps its bound |
| ThreadPools.StoppingIff | http-server-v1/thread_pool/thread_pool.cpp:40-45 | The pool is stopping if and only if shutdown has been called, and its bound never changes |
| ThreadPools.AcceptedIff | http-server-v1/thread_pool/thread_pool.cpp:22-37 | After any events an offered task is accepted, last in the queue and with one notification, if and only if shutdown has not been called and fewer than max tasks are accepted and not taken; otherwise nothing changes |
| ThreadPools.RemainingFalls | http-server-v1/thread_pool/thread_pool.cpp:57-78 | In a stopping pool every step but a refused call makes the measure smaller |
| ThreadPools.ShutdownDrains | http-server-v1/thread_pool/thread_pool.cpp:40-78 | Once stopping: calls change nothing, the measure falls with every other step, and a step is possible until all workers have returned |
| ThreadPools.AllTasksRunIff | http-server-v1/thread_pool/thread_pool.cpp:40-78 | When all workers have returned, every accepted task has been run exactly once if and only if there was a worker or nothing was accepted |
| SqlPools.SqlConnectionPool.constructor | http-server-v1/db/sql_connection_pool.hpp:32-36 | No connections, not initialised, not stopping |
| SqlPools.SqlConnectionPool.Init | http-server-v1/db/sql_connection_pool.cpp:15-63 | Refuses a size that is not positive, does nothing the second time, otherwise adds connections up to the first failure, and is initialised only if there was none |
| SqlPools.SqlConnectionPool.GetSection | http-server-v1/db/sql_connection_pool.cpp:66-78 | A caller with the mutex waits, gets nothing from a stopping pool, or takes the first connection |
| SqlPools.SqlConnectionPool.ReleaseSection | http-server-v1/db/sql_connection_pool.cpp:80-93 | A connection goes back to the end of the queue, or is to be closed if the pool is stopping |
| SqlPools.SqlConnectionPool.ShutdownSection | http-server-v1/db/sql_connection_pool.cpp:95-104 | The first call takes all idle connections out to be closed, later ones change nothing |
| SqlPools.ConnectionsAreConserved | http-server-v1/db/sql_connection_pool.cpp:15-115 | At all times every connection ever opened is in exactly one place: idle, lent to one guard, waiting to be closed, or closed |
| SqlPools.LentOnce | http-server-v1/db/sql_connection_pool.hpp:39-55 | No connection is lent to two guards, nor lent while idle, waiting to be closed or closed |
| SqlPools.ConnectedIs | http-server-v1/db/sql_connection_pool.cpp:32-57 | init adds the connections of the attempts one by one, up to the first that fails |
| SqlPools.PoolIsFifo | http-server-v1/db/sql_connection_pool.cpp:75-90 | Connections leave the queue in the order in which they were opened or given back |
| SqlPools.WordDecides | http-server-v1/db/sql_connection_pool.cpp:59-60 | Whether the pool is open or stopping is decided by the last successful init or shutdown |
| SqlPools.GetOutcome | http-server-v1/db/sql_connection_pool.cpp:66-78 | In every run a caller with the mutex gets nothing exactly after a shutdown, sleeps exactly if the open pool is empty, and otherwise gets the connection idle longest |
| SqlPools.StoppedIsEmptyIff | http-server-v1/db/sql_connection_pool.cpp:27-61 | A stopping pool keeps nothing idle across a step if and only if the step is not an init that fails half-way |
| SqlPools.StoppedIsEmpty | http-server-v1/db/sql_connection_pool.cpp:95-104 | Over all runs without such an init, a stopping pool has nothing idle |
| SqlPools.AllClosedOnce | http-server-v1/db/sql_connection_pool.cpp:80-115 | After a shutdown, when the guards are gone and the queue of connections to close is empty, every connection has been closed exactly once |
| SqlPools.AllClosedIff | http-server-v1/db/sql_connection_pool.cpp:80-115 | With nobody holding a connection and nothing left to close, every connection has been closed exactly once if and only if none is idle |
| SqlPools.HalfInitLeaks | http-server-v1/db/sql_connection_pool.cpp:27-61 | A run in which an init after the shutdown fails half-way: its connection stays idle in the stopped pool, nobody gets it and another shutdown does not close it |
| SqlPools.WakeStep | http-server-v1/db/sql_connection_pool.cpp:66-106 | Every step but an unannounced init with a sleeper keeps the wake-up invariant |
| SqlPools.NoLostWakeup | http-server-v1/app/main.cpp:56-66 | With init first, in every reachable state: if a guard sleeps, a notify_all is on its way or the idle connections are covered by notifications and callers |
| SqlPools.InitLosesWakeupIff | http-server-v1/db/sql_connection_pool.cpp:27-62 | With nothing else under way, init loses a wake-up if and only if a guard is already asleep |
| SqlPools.GuardBeforeInit | http-server-v1/db/sql_connection_pool.cpp:66-73 | A run in which a guard sleeps for ever beside an idle connection |
| Server.RoundNests | http-server-v1/webserver/webserver.cpp:140-350 | Whatever epoll_wait brings, the event loop and the tasks it submits take guards only under users_mutex_, one at a time, and keep nothing |
| Server.StaysGood | http-server-v1/webserver/webserver.cpp:206-332 | Over all interleavings of event loop, workers and notifications: discipline of locks and guards, conservation of connections, no lost wake-up |
| Server.GetNeverWaits | http-server-v1/http/http_conn.cpp:251-262 | With at least one connection, at most one is ever lent, and a handler about to take one never sleeps in get_connection |
| Server.NoDeadlock | http-server-v1/webserver/webserver.cpp:211-236 | With at least one worker and one connection, in every reachable state some thread can step or all are idle with nothing queued, locked or lent |
| Server.ComesToRest | http-server-v1/webserver/webserver.cpp:206-332 | Every step the server takes of itself uses up work that only epoll_wait brings, so it cannot run on without input |
| ConnTable.WebServer.constructor | http-server-v1/webserver/webserver.cpp:31-37 | An empty table and the idle limit |
| ConnTable.WebServer.Insert | http-server-v1/webserver/webserver.cpp:186-190 | The entry, fresh or not, gets the descriptor and the next generation, and its time |
| ConnTable.WebServer.TaskBegins | http-server-v1/webserver/webserver.cpp:211-216 | A task goes on if the descriptor is in the table with its generation, and then renews the time |
| ConnTable.WebServer.WriteBegins | http-server-v1/webserver/webserver.cpp:268-273 | A write goes on if the descriptor is in the table, and then renews the time |
| ConnTable.WebServer.CloseConn | http-server-v1/webserver/webserver.cpp:353-363 | Both entries go, and the descriptor is given back if the entry was open |
| ConnTable.WebServer.Expired | http-server-v1/webserver/webserver.cpp:140-155 | Exactly the descriptors idle longer than the limit are to be closed, in whatever order the map is visited |
| ConnTable.DueAfter | http-server-v1/webserver/webserver.cpp:149-154 | Whole seconds are compared, so a connection is due exactly when a full second more than its limit has passed |
| ConnTable.TimeIsLastWork | http-server-v1/webserver/webserver.cpp:189-273 | In every run the time kept for a connection is that of its insertion or its last task or write |
| ConnTable.DueIff | http-server-v1/webserver/webserver.cpp:140-155 | In every run a connection is due exactly when a full second more than its limit has passed since that |
| ConnTable.TableInvariant | http-server-v1/webserver/webserver.cpp:140-363 | Whenever the mutex is free, over all interleavings: both maps have the same keys, every entry carries its key and generation 1, and the open descriptors are those in the table and the one being accepted |
| ConnTable.GenerationNeverRejects | http-server-v1/webserver/webserver.cpp:198-214 | A task passes the generation test if and only if its descriptor is in the table: the generation looked up for it never makes the test reject |
| ConnTable.StaleTaskPasses | http-server-v1/webserver/webserver.cpp:211-214 | A run in which a task made for one connection passes for the next one on the same descriptor |
| Splitting.SubstitutedStep | http-server-v1/http/template.hpp:49-52 | One round of substitution: up to the leftmost marker, the value, then the rest |
| Splitting.JoinSplit | http-server-v1/http/template.hpp:44-53 | Joining the pieces with the separator gives back the text |
| Splitting.SplitJoin | http-server-v1/http/auth.cpp:153-164 | Pieces free of the separator are found again |
| Template.ReplacePlaceholder | http-server-v1/http/template.hpp:44-53 | The loop ends, even if the value contains the marker, and equals cutting at the leftmost non-overlapping markers and joining with the value |
| Template.ReplaceFills | http-server-v1/http/template.hpp:44-53 | On a template of harmless texts and holes it fills the holes of that name and nothing else |
| Template.HarmlessHasNoMarker | http-server-v1/http/template.hpp:44-53 | A text that holds no marker and does not end in the beginning of one takes part in none, whatever stands behind it |
| Template.SuccessiveIsSimultaneous | http-server-v1/http/http_conn.cpp:468-472 | Successive replacements equal one simultaneous substitution, for distinct keys and values that no later replacement can touch; brace-free values are such values, and the last value is free |
| Template.OrderDoesNotMatter | http-server-v1/http/http_conn.cpp:468-472 | Hence all orders of the calls for which that holds give the same page |
| Template.TwoCallsIff | http-server-v1/http/http_conn.cpp:468-472 | Two successive calls equal one simultaneous substitution on every template if and only if the first value holds no marker of the second placeholder and does not end in the beginning of one, or the second value is that marker |
| Escapes.HtmlEscape | http-server-v1/http/template.hpp:7-21 | The loop writes the code of every character, in order |
| Escapes.HtmlRoundTrip | http-server-v1/http/template.hpp:7-21 | Reading the five references back gives the text, for every text |
| Escapes.HtmlHasNoMarkup | http-server-v1/http/template.hpp:7-21 | No angle bracket and no quote is left in the output |
| Escapes.HtmlUnchangedIff | http-server-v1/http/template.hpp:7-21 | The output is the input if and only if none of the five characters is in it |
| Escapes.EscapeJson | http-server-v1/http/template.hpp:56-70 | The loop writes the code of every character, in order |
| Escapes.JsonRoundTrip | http-server-v1/http/template.hpp:56-70 | A left-to-right reader of string literals stops exactly at the closing quote put behind the output and has read the text, for every text and whatever follows |
| Escapes.JsonWellFormedIff | http-server-v1/http/template.hpp:55-70 | The output is a literal that RFC 8259 section 7 allows if and only if the text has no control character besides newline, return and tab |
| Escapes.ControlIsNotEscaped | http-server-v1/http/template.hpp:55-70 | A text of one such control character comes out unchanged, and is no well-formed literal |
| Escapes.EscapersKeepBraces | http-server-v1/http/http_conn.cpp:468-472 | Escaped values may be substituted into a template exactly when the raw ones may |
| Escapes.UrlDecode | http-server-v1/http/template.hpp:24-41 | The loop with its skipped index equals the recursive reading of plus signs and percent codes |
| Escapes.PercentCode | http-server-v1/http/template.hpp:30-35 | A percent sign with two of the sixteen digits, in either case, is the byte they say |
| Escapes.BrokenPercent | http-server-v1/http/template.hpp:30-38 | Without two digits behind it a percent sign stands for itself |
| Escapes.OtherByte | http-server-v1/http/template.hpp:28-38 | A plus sign is a space, and any other byte stands for itself |
| Escapes.DecodeWritten | http-server-v1/http/template.hpp:24-41 | However each byte was written, as itself, as plus or in either case of hexadecimal digits, decoding recovers the bytes and goes on with the rest |
| Escapes.UrlRoundTrip | http-server-v1/http/template.hpp:24-41 | Decoding undoes encoding for every string of bytes |
| ArticlePage.FillPage | http-server-v1/http/http_conn.cpp:468-472 | The article page is the five replacements, in order, of escaped values |
| ArticlePage.PageIsFilledTemplate | http-server-v1/http/http_conn.cpp:468-472 | For an article without double braces every hole gets its own value and none goes into another |
| ArticlePage.HolesGet | http-server-v1/http/http_conn.cpp:468-472 | Title and category are shown as written and leave no markup in the page, the content is read back from its literal, date and number are as stored, and holes of other names stay |
| ArticlePage.TitleCanBeFilled | http-server-v1/http/http_conn.cpp:468-472 | Without that condition it fails: a title that is a placeholder is filled in turn |
| Forms.GetFormValue | http-server-v1/http/auth.cpp:150-168 | The loop over positions equals cutting at every ampersand, each part at its first equals sign, and taking the first with the key |
| Forms.FormValueIs | http-server-v1/http/auth.cpp:150-168 | In a body joined from fields the first field of that name answers, and the empty string if there is none |
| Forms.BarePart | http-server-v1/http/auth.cpp:158-164 | In any body a part without an equals sign is passed over |
| Forms.ValuePart | http-server-v1/http/auth.cpp:158-164 | In any body a part with one answers with all behind its first equals sign if its key is asked for, and is passed over otherwise |
| Forms.FormRoundTrip | http-server-v1/http/http_conn.cpp:523-525 | Encoding and joining any fields and then decoding what is found under a key gives the first value of that name, or nothing |
| Forms.EncodedKeyIsFoundIff | http-server-v1/http/auth.cpp:161-163 | Keys are compared undecoded: an encoded field is found under its name if and only if encoding left the key unchanged |
| Forms.EncodedKeyIsMissed | http-server-v1/http/auth.cpp:161-163 | The key "a b", sent as "a+b", is found under the second and not under the first |

## Left out

- Overlapping read tasks: the connection model lets a read task run only while the connection waits for input, never while a request is queued or a response is being sent. The server registers EPOLLIN without one-shot (`webserver/webserver.cpp:179`, `206`), so its event loop does not establish that; a second read task that finds a response not yet sent is not modelled. Otherwise the interleaving is free: write events come whenever EPOLLOUT is asked for and the event loop is not itself about to close, and pipeline tasks, a queued read task, late calls of `modfd` and `close_conn` come in any order, also between a decision to close and the closing.
- Reuse of descriptors beyond the table invariant: nothing is claimed about a late task or close that meets a newer connection on the same descriptor, except that the generation test does not stop it.
- Serving.ServesThePipeline: restricted to requests within the size limits whose body, if any, is a POST's. `Serving.CutIsExactIff` shows that the second restriction is needed; refused and malformed requests are covered by the theorems of `wire.dfy` and `buffer_bounds.dfy`, which hold for all input.
- Reading.ChunksDoNotMatter: for a request that is not a POST the body is not compared, because the code takes as much of it as happens to be there.
- BufferBounds.BuffersAreBounded: bounds the read buffer only; what is written out is as large as files and handlers make it. Pipelined requests have no limit of their own in the code beyond the leftover of one chunk.
- SqlPools.AllClosedOnce: leaves out runs in which an init fails half-way in a pool that has been shut down; `SqlPools.AllClosedIff` has the exact condition without that restriction.
- SqlPools.NoLostWakeup: assumes that init does not come after a sleeping caller, the order `app/main.cpp:56-66` keeps; `SqlPools.InitLosesWakeupIff` shows what happens otherwise.
- ArticlePage.PageIsFilledTemplate: asks that no value of the article contains a double opening brace or ends in a brace, which is sufficient and not necessary; `Template.SuccessiveIsSimultaneous` has the finer condition.
- Template.SuccessiveIsSimultaneous: for two placeholders its condition is exact (`Template.TwoCallsIff`); for more it is sufficient, because a third call can undo what a second one spoilt. Template texts with double braces that are not placeholders are left out.
- Escapes.JsonRoundTrip: the reference reader knows the two-character escapes; escapes by code point, which the code never writes, are not read.
- ThreadPools.ThreadPool.WorkerSection: the endless loop of a worker, the wait and the joins are steps of the state machine, not a method; waiting for a mutex is left to the interleaving.
- Loops of callers are values where they are history: the states of pools, table, server and connection in the state machines are datatypes; the classes hold the sections that change them.
- Destructors and process exit: the pools are destroyed only by the events of their shutdowns; the server model never shuts down.
- Sockets, epoll and fcntl calls: only their results appear. Memory exhaustion and signals do not.
- Page handlers: a handler is any function from the request and the session token to a response; its database statements, password hashing, tokens and page texts are not part of this model, apart from the article page. That a handler takes its guards one at a time is read off the source, not derived.
- Static files, MIME types, the file cache and the dispatch by URL with its lenient `stoi`: table look-ups and prefixes that add nothing hard.
- The log and the summary of the last request kept for it, argument parsing, start-up and its error exits.
- HTML, CSS, scripts and build files.
