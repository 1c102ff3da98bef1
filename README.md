# medownloader, modelled in Dafny

medownloader is a small download server written in Go. A browser page asks it to fetch a URL
into a directory. The server keeps a registry of downloads, each with its own progress. A
background worker per download streams the response body into a file and can resume a partial
file with an HTTP `Range` request. The server also keeps a session table of login tokens.

This project models the core of that program and proves properties of the model.

- The download registry (`internal/downloader/manager.go`) is the class
  `Manager.DownloadManager`. It holds a sequence of items and the id counter. Its invariant
  `Valid` says every stored id lies below the counter and ids increase along the sequence, so
  they are distinct. Starting a worker and cancelling a context are not run. They are appended
  to a ghost log `Events` as `Spawn(id, generation)` and `CancelRun(id, generation)`.
- The download item (`internal/downloader/item.go`) is the class `Item.DownloadItem`.
  - Its identity fields are constants.
  - Its progress fields are written only by the setters and by `Download`.
  - Its context is a `Context(generation, done)`. `changeCtx` installs the context it is given.
    `Manager.DownloadManager.ResumeDownload` passes a new context one generation above the old
    one. Calling the cancel function sets `done`.
- `Download` replays one run of the worker against a `Transfer.World`. A `World` records:
  - the existing file, or none;
  - the outcomes of building the request, sending it, opening the file and seeking in it;
  - the response's `ContentLength`, which is -1 when unknown;
  - a finite sequence of Read calls. Each Read call carries its bytes, the outcome of writing
    them, and its own result: more, end of stream, or an error together with whether
    the context had ended at that moment. Every context comes from `context.WithCancel`, so an
    ended context's error is always `context.Canceled`.

  The method's loop is proved against the pure function `Transfer.Run`, and the lemmas of
  `Transfer` state what a run does. If the sequence of Read calls runs out while the last one
  asked for more, the model reports `finished == false`. That case stands for a body that has
  not yet ended.
- The handlers (`internal/server/handler.go`) are methods over a manager. Their replies are
  status codes and JSON bodies. The operating system's answers arrive as parameters:
  - the working directory;
  - `os.Stat` of the given directory;
  - the set of paths `PathExists` reports;
  - the formatted clock.
- `getFilenameFromUrl` is modelled over an explicit `strings.Split` (`Handler.Split`), which
  never returns an empty slice. The timestamp branch is therefore unreachable, and the model
  keeps it unreachable.
- When the add request names a directory (`Dir` not empty), the handler checks that directory
  but never assigns it to `dir`. The model joins the file name to `""` in that case, as the code
  does (`Handler.DirectoryUsed`).
- The session table (`internal/server/session.go`) is the class `Session.SessionManager`. It
  maps each token to its expiry instant in nanoseconds. The pure `Session.Check` states the
  validity rule. The random token and the clock are parameters, and so is the request's cookie
  (`None` when there is no `medownloader_token` cookie).
- The startup parsers (`cmd/medownloader/main.go`) are `Config.ParsePort` and
  `Config.ParseSessionDuration`, which are functions of the environment string and the flag
  value. `parsePassword` is a method on a `Config.ProcessEnv` object that holds the environment
  variables. The model reads Go's `int` as 64 bits wide:
  - `Strconv.Atoi` is Go's `strconv.Atoi`: an optional sign, decimal digits, and the int64 range;
  - `Strconv.Itoa` is the `%d` verb of `fmt`;
  - the minute-to-nanosecond multiplication wraps around in int64, as Go's does
    (`Config.WrapInt64`).

Six of the definitions without a contract of their own are modelled operations. Their
properties are stated by the members named in the Model table:
- `Transfer.Stream` is the read loop and `Transfer.Run` is one whole run of the worker.
- `Config.ParsePort` and `Config.ParseSessionDuration` are the two startup parsers.
- `Handler.Join` is `filepath.Join` for two elements (`Handler.JoinPlacesName`).
- `Handler.IsUrlValid` is the scheme and host rule, stated in the contract of
  `Handler.AddAndStartDownloadHandler`.

## Model

| member | source | states |
|---|---|---|
| Strconv.Itoa | cmd/medownloader/main.go:20 | `%d` formatting: plain decimal digits with no '+' and no leading zero (just "0" for zero), preceded by '-' exactly for negative numbers |
| Strconv.Atoi | cmd/medownloader/main.go:24 | strconv.Atoi: a parsed value always lies in the int64 range, and the text starts with a digit or a sign |
| Strconv.AtoiItoa | cmd/medownloader/main.go:34 | reading back the `%d` spelling of any int64 gives the number itself |
| Strconv.AtoiSigned | cmd/medownloader/main.go:24 | for every optional sign and text after it: a non-empty run of digits is accepted with its value, negated after '-', exactly when that value fits in int64; any other text is rejected |
| Strconv.LeadingZero | cmd/medownloader/main.go:24 | a leading zero does not change the value of a run of digits |
| Strconv.AtoiExamples | internal/server/handler.go:144 | Atoi accepts "8080", "+0443" and "-15", and rejects the empty string, a bare sign, a leading blank and trailing letters |
| Transfer.RangeNamesOffset | internal/downloader/item.go:104-106 | the Range header is "bytes=", then the resume offset in plain decimal digits with no sign or leading zero, which Atoi reads back as exactly that offset, then "-" |
| Transfer.StreamAccounts | internal/downloader/item.go:154-167 | the read loop keeps the old file as a prefix and grows Downloaded by exactly as many bytes as it writes; it never changes Size; a loop that has not returned keeps the flags and the error |
| Transfer.StreamExclusive | internal/downloader/item.go:169-188 | a loop started running is, when it returns, never both active and completed; a loop that has not returned is still running |
| Transfer.StreamStopsAtReturn | internal/downloader/item.go:154-190 | once the loop has returned, later Read events change nothing |
| Transfer.StreamMonotone | internal/downloader/item.go:164-166 | Downloaded never decreases as more Read events are consumed |
| Transfer.StreamSkips | internal/downloader/item.go:154-167 | after Read calls that all succeed, the loop has counted and written exactly their bytes |
| Transfer.StreamEndsAt | internal/downloader/item.go:157-188 | at the first Read event that stops the loop: a failed write records its error without counting the chunk; otherwise the chunk is counted and the read result decides the final state |
| Transfer.RunExclusive | internal/downloader/item.go:89-192 | no run leaves the item both active and completed |
| Transfer.RunFailsEarly | internal/downloader/item.go:98-140 | a failure before the running block records the error of the first failing step (request, send, open, seek), keeps Downloaded, Size and the file, and leaves the item neither active nor completed |
| Transfer.RunResumes | internal/downloader/item.go:92-149 | when resuming, the request asks for the range from the existing size; the existing bytes stay in front; Downloaded equals the file size; Size is ContentLength plus the resume offset |
| Transfer.RunCompletes | internal/downloader/item.go:154-174 | successful reads up to end of stream complete the download with the old contents followed by every byte received; when exactly ContentLength bytes arrive, Downloaded equals Size |
| Transfer.RunTerminates | internal/downloader/item.go:169-188 | end of stream completes; a Canceled error after the context ended stops with no new error; another error after the context ended records context.Canceled; any other error is recorded as is |
| Item.DownloadItem.constructor | internal/downloader/manager.go:47-54 | a new item has the given id, url, path and name, is pending and has a fresh context |
| Item.DownloadItem.GetData | internal/downloader/item.go:33-56 | the snapshot copies every field; its error text is the error's message, and it is "" when there is no error or the message is empty |
| Item.DownloadItem.ChangeCtx | internal/downloader/item.go:59-64 | installs the given context and changes nothing else |
| Item.DownloadItem.Cancel | internal/downloader/item.go:27 | calling the cancel function marks the current context done and keeps its generation |
| Item.DownloadItem.SetDone | internal/downloader/item.go:66-71 | completed and not active; the other progress fields are untouched |
| Item.DownloadItem.SetStopped | internal/downloader/item.go:73-77 | not active; Completed, Err, Downloaded and Size are untouched |
| Item.DownloadItem.SetError | internal/downloader/item.go:80-87 | neither active nor completed, with the error recorded; Downloaded and Size are untouched |
| Item.DownloadItem.Download | internal/downloader/item.go:89-192 | the progress, file, request and finished flag the worker leaves are those of Transfer.Run for the item's state, URL and context |
| Manager.Find | internal/downloader/manager.go:99-105 | the first position holding the id, or none exactly when no item has it |
| Manager.RegisteredWithout | internal/downloader/manager.go:81 | cutting one item out of a registered sequence keeps it registered |
| Manager.FindsItem | internal/downloader/manager.go:99-105 | in a registered sequence, the search for an item's id finds that very item |
| Manager.DownloadManager.constructor | internal/downloader/manager.go:17-22 | an empty registry with the counter at 0 |
| Manager.DownloadManager.ResumeDownload | internal/downloader/manager.go:25-38 | the item with the id gets a new context and a worker, whether or not it is active; no progress field changes; an unknown id does nothing |
| Manager.DownloadManager.AddDownload | internal/downloader/manager.go:41-60 | appends a fresh pending item whose id is the counter's old value, and increments the counter; the invariant is kept |
| Manager.DownloadManager.StopDownload | internal/downloader/manager.go:63-68 | only cancels the item's context; Active is not cleared |
| Manager.DownloadManager.DeleteDownload | internal/downloader/manager.go:71-88 | removes exactly the item with the id and keeps the order of the rest, cancelling it first if it is active; an unknown id returns the not-found error and changes nothing |
| Manager.DownloadManager.StartDownload | internal/downloader/manager.go:91-93 | starts one worker on the item's current context |
| Manager.DownloadManager.GetItemById | internal/downloader/manager.go:95-106 | the item with the id, null exactly when there is none |
| Manager.DownloadManager.GetAllDownloads | internal/downloader/manager.go:109-120 | one snapshot per item, in order |
| Manager.IdsAreDistinct | internal/downloader/manager.go:48-58 | in a valid registry, two different positions hold two different ids |
| Handler.Split | internal/server/handler.go:193 | strings.Split on "/" gives at least one piece, and no piece contains '/' |
| Handler.JoinSplit | internal/server/handler.go:193 | joining the pieces of a split with "/" gives back the string |
| Handler.SplitJoin | internal/server/handler.go:193 | splitting the join of slash-free pieces gives back the pieces |
| Handler.LastPiece | internal/server/handler.go:193-195 | the last piece is a suffix of the string that is either the whole string or preceded by '/' |
| Handler.GetFilenameFromUrl | internal/server/handler.go:191-203 | the file name is the text after the last '/' of the URL, or the whole URL when it has no '/'; it contains no '/' |
| Handler.FilenameFromUrlEdges | internal/server/handler.go:193-196 | a URL ending in '/' gives "", and a URL without '/' is its own file name |
| Handler.JoinPlacesName | internal/server/handler.go:105 | the joined path starts with the directory and ends with '/' and the name, and reading a file name back from it gives that name |
| Handler.Destination | internal/server/handler.go:104-110 | the name stays as given exactly when its joined path does not exist; otherwise it becomes "timestamp-name"; the path is always the directory joined with the final name |
| Handler.AddAndStartDownloadHandler | internal/server/handler.go:61-122 | an empty URL, one that does not parse, one whose scheme is neither http nor https and one with an empty host give 400, and an inaccessible directory or a file in its place gives 500, each changing nothing; otherwise exactly one pending item is added and started, and 202 carries its id and file name |
| Handler.Toggle | internal/server/handler.go:157-166 | an active item is stopped and not resumed; an item neither active nor completed is resumed; a completed item is left alone |
| Handler.ToggleHandler | internal/server/handler.go:140-168 | a malformed id or an unknown id gives its error and changes nothing; otherwise 200 and one toggle of the item found |
| Handler.DeleteHandler | internal/server/handler.go:171-188 | a malformed id or an unknown id gives its error and changes nothing, contexts included; otherwise the item is deleted, its context cancelled if it was active, every other context kept, and "removed" is returned |
| Session.Check | internal/server/session.go:52-75 | valid exactly when the cookie names a known token that has not expired; only that token, and only when expired, leaves the table; nothing is added or changed |
| Session.FreshSessionValidUntilExpiry | internal/server/session.go:30-33 | a session created at t with validity v is accepted exactly before t + v |
| Session.ExpiredTokenStaysRefused | internal/server/session.go:69-73 | an expired token is refused and stays refused at every later check |
| Session.SessionManager.constructor | internal/server/session.go:17-22 | an empty table with the given validity |
| Session.SessionManager.CreateSession | internal/server/session.go:24-49 | maps the token to now + validity, keeps every other entry, and sets the medownloader_token cookie with that expiry |
| Session.SessionManager.IsSessionValid | internal/server/session.go:52-75 | no cookie or unknown token: false, table unchanged; unexpired: true, unchanged; expired: false and the token removed, the rest unchanged |
| Config.WrapInt64 | cmd/medownloader/main.go:54-64 | the int64 value congruent to x modulo 2^64; equal to x in range |
| Config.ParsePortAccepts | cmd/medownloader/main.go:15-36 | accepts an empty ME_PORT, taking the flag without a range check, and otherwise exactly the integers 1024 to 65535; the address is ":" followed by the port in `%d` spelling (plain digits, no '+', no leading zero, '-' only for a negative flag), which reads back as that port |
| Config.ParsePortErrors | cmd/medownloader/main.go:26-33 | a malformed ME_PORT and one out of range give their two distinct messages |
| Config.SessionDurationMinutes | cmd/medownloader/main.go:49-66 | fails exactly on a malformed value, with no range check; the result is the minutes in nanoseconds, exact for up to 153722867 minutes either way |
| Config.ProcessEnv.ParsePassword | cmd/medownloader/main.go:38-47 | ME_PASSWORD becomes "password" exactly when it is empty or unset, and is otherwise unchanged |

## Left out

- Goroutines, `sync.Mutex` and `sync.RWMutex` are not modelled. The model is sequential, so
  locks are no-ops and a started worker is only an entry in the `Events` log.
  - Two workers racing after a resume of an active item are not modelled.
  - A worker that clears Active between the toggle's two tests is not modelled. In Go that
    lets one toggle both stop and resume the item.
- The link between cancelling an item's context and what its worker's next Read reports is not
  modelled. That link is concurrent in Go. Each Read event carries, as an input, whether the
  context had ended at that moment.
- `Handler.Join`: `filepath.Join` is modelled without its lexical `Clean`, so "." and ".."
  elements and doubled separators are kept.
- Downloaded, Size and the id counter are unbounded integers. int64 overflow of these is
  unreachable in practice and is not modelled.
- A write that fails after writing part of a chunk is not modelled: its partial bytes are not
  added to the modelled file. The 32 KiB bound on a single read is not modelled either.
- `os.Stat` on the destination failing for an existing file is modelled as "no file": the
  resume offset is 0 and the model treats the file as empty. The file is opened without
  truncation, so in Go any old bytes past the newly written ones would remain; those are not
  modelled.
- `Manager.DownloadManager.StopDownload`: the nil check on the cancel function is not modelled,
  because every item gets a cancel function when it is created.
- The HTTP client, `os.OpenFile`, `Seek`, `Write`, `os.Stat`, `os.Getwd`, `crypto/rand`,
  `base64` and `time.Now` are not modelled. Their results are parameters. `parsePort` and
  `parseSessionDuration` likewise take the value `os.Getenv` returns as a parameter. The
  environment that `parsePassword` reads and writes is the map of `Config.ProcessEnv`.
- The internals of `url.ParseRequestURI` are not modelled. The parsed scheme and host are given.
- `time.Time.Add` is plain addition of nanoseconds. The cookie's constant attributes
  (`HttpOnly`, `Path`, `SameSite`, `Secure`) and the log and console output are not modelled.
- The handlers for login, logout, listing the downloads and the directory information are not
  modelled. `getCurDirInfo` and `isOSUnixLike` use `syscall.Statfs`, `runtime.GOOS` and
  floating point, so they are left out too. Listing is `GetAllDownloads`, which is modelled.
- JSON encoding and decoding are not modelled. The request body is given as an
  `AddDownloadDto` and a reply as its status and body value.
- `internal/server/server.go`, `internal/server/middleware.go`, `internal/server/encoding.go`
  and `internal/server/script.js` are not part of this model. They hold route wiring,
  logging, JSON helpers and browser code.
