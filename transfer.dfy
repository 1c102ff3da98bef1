/**
 * The state machine of one run of a download worker (DownloadItem.download), as a function of
 * everything the worker observes from the outside world: whether the destination file exists and
 * what it holds, whether building the request, sending it, opening and seeking the file fail, and
 * the sequence of Read calls on the response body.
 */
module Transfer {
  import opened Wrappers
  import Strconv

  newtype byte = x: int | 0 <= x < 256

  /** The Go error values the worker tells apart. */
  datatype Error =
    | Canceled                             // context.Canceled
    | Plain(text: string)                  // any other error
    | Wrapped(text: string, cause: Error)  // an error that wraps another one (%w, *url.Error)

  /** err.Error() */
  function Message(e: Error): string {
    match e
    case Canceled => "context canceled"
    case Plain(t) => t
    case Wrapped(t, _) => t
  }

  /** errors.Is(e, context.Canceled): e is Canceled or wraps it. */
  predicate IsCanceled(e: Error) {
    match e
    case Canceled => true
    case Wrapped(_, c) => IsCanceled(c)
    case _ => false
  }

  /** The fields of a DownloadItem that the worker writes. */
  datatype Progress = Progress(active: bool, completed: bool, downloaded: int, size: int, err: Option<Error>)

  /** setDone */
  function Done(p: Progress): Progress {
    p.(completed := true, active := false)
  }

  /** setStopped */
  function Stopped(p: Progress): Progress {
    p.(active := false)
  }

  /** setError */
  function Failed(p: Progress, e: Error): Progress {
    p.(completed := false, active := false, err := Some(e))
  }

  /** The block that makes the item observably running, resuming at byte k. */
  function Running(contentLength: int, k: nat): Progress {
    Progress(true, false, k, contentLength + k, None)
  }

  /** What a Read call on the response body reports besides its bytes. */
  datatype ReadResult =
    | More                                       // err == nil
    | Eof                                        // err == io.EOF
    | ReadError(err: Error, ctxDone: bool)       // another error; ctxDone: Ctx.Err() != nil at that moment

  /**
   * One Read call: the bytes it returned, the error of writing them to the file (a write is
   * only attempted when there are bytes) and the read's own outcome.
   */
  datatype Chunk = Chunk(data: seq<byte>, writeErr: Option<Error>, result: ReadResult)

  /** The state reached by the read loop: progress, file contents, and whether the loop returned. */
  datatype Phase = Phase(progress: Progress, file: seq<byte>, finished: bool)

  /** The terminal transition on a read result other than More. */
  function Settle(p: Progress, r: ReadResult): Progress
    requires !r.More?
  {
    match r
    case Eof => Done(p)
    case ReadError(e, ctxDone) =>
      // A context made by context.WithCancel can only end with context.Canceled.
      if ctxDone then
        if IsCanceled(e) then Stopped(p) else Failed(p, Canceled)
      else Failed(p, e)
  }

  /** A chunk after which the loop goes on reading. */
  predicate Proceeds(c: Chunk) {
    c.result.More? && (|c.data| == 0 || c.writeErr.None?)
  }

  /** A chunk whose bytes, if any, reach the file. */
  predicate WriteSucceeds(c: Chunk) {
    |c.data| == 0 || c.writeErr.None?
  }

  /** All bytes returned by a sequence of Read calls, in order. */
  function Bytes(body: seq<Chunk>): seq<byte> {
    if body == [] then [] else body[0].data + Bytes(body[1..])
  }

  /** The read loop, replayed over a finite sequence of Read calls. */
  function Stream(p: Progress, file: seq<byte>, body: seq<Chunk>): Phase
    decreases |body|
  {
    if body == [] then Phase(p, file, false)
    else
      var c := body[0];
      if |c.data| > 0 && c.writeErr.Some? then Phase(Failed(p, c.writeErr.value), file, true)
      else
        var p' := if |c.data| > 0 then p.(downloaded := p.downloaded + |c.data|) else p;
        var file' := if |c.data| > 0 then file + c.data else file;
        if c.result.More? then Stream(p', file', body[1..])
        else Phase(Settle(p', c.result), file', true)
  }

  /** Everything one run of the worker observes. */
  datatype World = World(
    existing: Option<seq<byte>>,      // the destination file before the run, None if os.Stat fails
    requestErr: Option<Error>,        // http.NewRequestWithContext
    response: Result<Response, Error>, // httpClient.Do
    openErr: Option<Error>,           // os.OpenFile with O_CREATE|O_WRONLY
    seekErr: Option<Error>)           // file.Seek, attempted only when resuming

  /** The response: its ContentLength (-1 when unknown) and the Read calls on its body. */
  datatype Response = Response(contentLength: int, body: seq<Chunk>)

  /** The outbound request: its URL, the context it is bound to, and its Range header. */
  datatype Request = Request(url: string, ctxGeneration: nat, range: Option<string>)

  /** The result of a run: progress, the destination file (None if absent), whether the worker returned, the request built. */
  datatype Outcome = Outcome(progress: Progress, file: Option<seq<byte>>, finished: bool, request: Option<Request>)

  /** The resume offset: the size of the existing file, 0 if there is none. */
  function ResumeOffset(existing: Option<seq<byte>>): nat {
    if existing.Some? then |existing.value| else 0
  }

  /** The Range header of the request, "bytes=<k>-", set only when resuming. */
  function RangeHeader(k: nat): Option<string> {
    if k > 0 then Some("bytes=" + Strconv.Itoa(k) + "-") else None
  }

  /** The run reaches the point where the item becomes observably running. */
  predicate Starts(w: World) {
    && w.requestErr.None?
    && w.response.Success?
    && w.openErr.None?
    && (ResumeOffset(w.existing) == 0 || w.seekErr.None?)
  }

  /** One complete run of the worker, from the progress p and a context generation. */
  function Run(p: Progress, url: string, generation: nat, w: World): Outcome {
    var k := ResumeOffset(w.existing);
    if w.requestErr.Some? then Outcome(Failed(p, w.requestErr.value), w.existing, true, None)
    else
      var req := Some(Request(url, generation, RangeHeader(k)));
      if w.response.Failure? then Outcome(Failed(p, w.response.error), w.existing, true, req)
      else if w.openErr.Some? then Outcome(Failed(p, w.openErr.value), w.existing, true, req)
      else
        var contents := w.existing.GetOr([]);
        if k > 0 && w.seekErr.Some? then Outcome(Failed(p, w.seekErr.value), Some(contents), true, req)
        else
          var s := Stream(Running(w.response.value.contentLength, k), contents, w.response.value.body);
          Outcome(s.progress, Some(s.file), s.finished, req)
  }

  // ---------------------------------------------------------------------------------------------
  // Properties of the read loop

  /**
   * The read loop writes every counted byte to the file and nothing else: the file only grows,
   * by exactly the growth of Downloaded; Size never changes; and a loop that has not returned is
   * still running.
   */
  lemma {:induction false} StreamAccounts(p: Progress, file: seq<byte>, body: seq<Chunk>)
    ensures var r := Stream(p, file, body);
      && |r.file| >= |file|
      && r.file[..|file|] == file
      && r.progress.downloaded - p.downloaded == |r.file| - |file|
      && r.progress.size == p.size
      && (!r.finished ==> r.progress.active == p.active && r.progress.completed == p.completed && r.progress.err == p.err)
    decreases |body|
  {
    if body != [] {
      var c := body[0];
      if !(|c.data| > 0 && c.writeErr.Some?) {
        var p' := if |c.data| > 0 then p.(downloaded := p.downloaded + |c.data|) else p;
        var file' := if |c.data| > 0 then file + c.data else file;
        if c.result.More? {
          StreamAccounts(p', file', body[1..]);
          assert file'[..|file|] == file;
          var r := Stream(p', file', body[1..]);
          assert r.file[..|file|] == r.file[..|file'|][..|file|];
        } else {
          assert file'[..|file|] == file;
        }
      }
    }
  }

  /** A loop started in the running state either has not returned and is still running, or has returned inactive; never both active and completed. */
  lemma {:induction false} StreamExclusive(p: Progress, file: seq<byte>, body: seq<Chunk>)
    requires p.active && !p.completed
    ensures var r := Stream(p, file, body).progress;
      && !(r.active && r.completed)
      && (Stream(p, file, body).finished <==> !r.active)
    decreases |body|
  {
    if body != [] {
      var c := body[0];
      if !(|c.data| > 0 && c.writeErr.Some?) && c.result.More? {
        var p' := if |c.data| > 0 then p.(downloaded := p.downloaded + |c.data|) else p;
        var file' := if |c.data| > 0 then file + c.data else file;
        StreamExclusive(p', file', body[1..]);
      }
    }
  }

  /** After the loop has returned, further Read events do not matter. */
  lemma {:induction false} StreamStopsAtReturn(p: Progress, file: seq<byte>, body: seq<Chunk>, i: nat)
    requires i <= |body|
    requires Stream(p, file, body[..i]).finished
    ensures Stream(p, file, body) == Stream(p, file, body[..i])
    decreases i
  {
    assert i > 0;
    var c := body[0];
    assert body[..i][0] == c;
    if !(|c.data| > 0 && c.writeErr.Some?) && c.result.More? {
      var p' := if |c.data| > 0 then p.(downloaded := p.downloaded + |c.data|) else p;
      var file' := if |c.data| > 0 then file + c.data else file;
      assert body[..i][1..] == body[1..][..i - 1];
      StreamStopsAtReturn(p', file', body[1..], i - 1);
    }
  }

  /** Downloaded never decreases as the loop consumes more Read events. */
  lemma {:induction false} StreamMonotone(p: Progress, file: seq<byte>, body: seq<Chunk>, i: nat)
    requires i <= |body|
    ensures p.downloaded <= Stream(p, file, body[..i]).progress.downloaded <= Stream(p, file, body).progress.downloaded
    decreases i
  {
    StreamAccounts(p, file, body[..i]);
    StreamAccounts(p, file, body);
    if i > 0 {
      var c := body[0];
      assert body[..i][0] == c;
      if !(|c.data| > 0 && c.writeErr.Some?) && c.result.More? {
        var p' := if |c.data| > 0 then p.(downloaded := p.downloaded + |c.data|) else p;
        var file' := if |c.data| > 0 then file + c.data else file;
        assert body[..i][1..] == body[1..][..i - 1];
        StreamMonotone(p', file', body[1..], i - 1);
      }
    }
  }

  /**
   * When the first i Read calls all proceed, the loop has counted and written exactly their
   * bytes before it looks at the rest.
   */
  lemma {:induction false} StreamSkips(p: Progress, file: seq<byte>, body: seq<Chunk>, i: nat)
    requires i <= |body|
    requires forall j :: 0 <= j < i ==> Proceeds(body[j])
    ensures Stream(p, file, body)
         == Stream(p.(downloaded := p.downloaded + |Bytes(body[..i])|), file + Bytes(body[..i]), body[i..])
    decreases i
  {
    if i == 0 {
      assert body[..0] == [] && body[0..] == body;
      assert p.(downloaded := p.downloaded + 0) == p && file + [] == file;
    } else {
      var c := body[0];
      var p' := if |c.data| > 0 then p.(downloaded := p.downloaded + |c.data|) else p;
      var file' := if |c.data| > 0 then file + c.data else file;
      assert Proceeds(body[0]);
      assert p' == p.(downloaded := p.downloaded + |c.data|) && file' == file + c.data;
      assert body[..i][0] == c;
      assert body[..i][1..] == body[1..][..i - 1];
      var rest := Bytes(body[1..][..i - 1]);
      assert Bytes(body[..i]) == c.data + rest;
      StreamSkips(p', file', body[1..], i - 1);
      assert body[1..][i - 1..] == body[i..];
      assert file' + rest == file + (c.data + rest);
      assert p'.(downloaded := p'.downloaded + |rest|) == p.(downloaded := p.downloaded + |c.data + rest|);
    }
  }

  /**
   * The loop ends at the first Read event i that does not proceed: on a failed write it records
   * the write error without counting the chunk; otherwise it counts and writes the chunk and
   * settles on the read result.
   */
  lemma StreamEndsAt(p: Progress, file: seq<byte>, body: seq<Chunk>, i: nat)
    requires i < |body|
    requires forall j :: 0 <= j < i ==> Proceeds(body[j])
    requires !Proceeds(body[i])
    ensures var before := p.(downloaded := p.downloaded + |Bytes(body[..i])|);
      var written := file + Bytes(body[..i]);
      var c := body[i];
      Stream(p, file, body)
        == if !WriteSucceeds(c) then Phase(Failed(before, c.writeErr.value), written, true)
           else Phase(Settle(before.(downloaded := before.downloaded + |c.data|), c.result), written + c.data, true)
  {
    StreamSkips(p, file, body, i);
    var c := body[i];
    var before := p.(downloaded := p.downloaded + |Bytes(body[..i])|);
    var written := file + Bytes(body[..i]);
    assert body[i..][0] == c;
    if WriteSucceeds(c) && |c.data| == 0 {
      assert before.(downloaded := before.downloaded + 0) == before && written + [] == written;
    }
  }

  /** Bytes of a sequence split in two. */
  lemma {:induction false} BytesAppend(a: seq<Chunk>, b: seq<Chunk>)
    ensures Bytes(a + b) == Bytes(a) + Bytes(b)
    decreases |a|
  {
    if a == [] {
      assert a + b == b;
    } else {
      assert (a + b)[1..] == a[1..] + b;
      BytesAppend(a[1..], b);
    }
  }

  // ---------------------------------------------------------------------------------------------
  // Properties of a whole run

  /** No run ever leaves the item both active and completed, whatever state it started from. */
  lemma RunExclusive(p: Progress, url: string, generation: nat, w: World)
    ensures var r := Run(p, url, generation, w).progress; !(r.active && r.completed)
  {
    if Starts(w) {
      var k := ResumeOffset(w.existing);
      StreamExclusive(Running(w.response.value.contentLength, k), w.existing.GetOr([]), w.response.value.body);
    }
  }

  /**
   * A run that fails before the item becomes running records the error of the first step that
   * failed (building the request, sending it, opening the file, seeking in it), leaves Downloaded
   * and Size as they were and does not touch the destination file.
   */
  lemma RunFailsEarly(p: Progress, url: string, generation: nat, w: World)
    requires !Starts(w)
    ensures var r := Run(p, url, generation, w);
      var e := if w.requestErr.Some? then w.requestErr.value
               else if w.response.Failure? then w.response.error
               else if w.openErr.Some? then w.openErr.value
               else w.seekErr.value;
      && r.finished && r.progress == Failed(p, e) && r.file == w.existing
      && !r.progress.active && !r.progress.completed
      && r.progress.downloaded == p.downloaded && r.progress.size == p.size
  {
  }

  /** The Range header names the resume offset: "bytes=", the offset in decimal, then "-". */
  lemma RangeNamesOffset(k: nat)
    requires 0 < k <= Strconv.MaxInt64
    ensures RangeHeader(k).Some?
    ensures var h := RangeHeader(k).value;
      && |h| > 7 && h[..6] == "bytes=" && h[|h| - 1] == '-' && Strconv.Atoi(h[6..|h| - 1]) == Some(k)
      && Strconv.AllDigits(h[6..|h| - 1]) && h[6] != '0'
  {
    var h := RangeHeader(k).value;
    assert h[6..|h| - 1] == Strconv.Itoa(k) == Strconv.Digits(k);
    Strconv.AtoiItoa(k);
  }

  /**
   * Resume: the request asks for the range starting at the existing file's size exactly when
   * that size is positive; once running, the existing bytes stay at the front of the file,
   * Downloaded equals the file's size, and Size is ContentLength plus the resume offset.
   */
  lemma RunResumes(p: Progress, url: string, generation: nat, w: World)
    requires Starts(w)
    ensures var r := Run(p, url, generation, w);
      var prior := w.existing.GetOr([]);
      && r.request == Some(Request(url, generation, RangeHeader(|prior|)))
      && (r.request.value.range.Some? <==> |prior| > 0)
      && r.file.Some? && |r.file.value| >= |prior| && r.file.value[..|prior|] == prior
      && r.progress.downloaded == |r.file.value|
      && r.progress.size == w.response.value.contentLength + |prior|
  {
    var k := ResumeOffset(w.existing);
    StreamAccounts(Running(w.response.value.contentLength, k), w.existing.GetOr([]), w.response.value.body);
  }

  /**
   * A run whose Read calls all succeed until one reports end of stream completes: the file is
   * the old contents followed by every byte received, and when the server sent exactly
   * ContentLength bytes, Downloaded equals Size.
   */
  lemma RunCompletes(p: Progress, url: string, generation: nat, w: World)
    requires Starts(w)
    requires var body := w.response.value.body;
      && |body| > 0
      && (forall j :: 0 <= j < |body| - 1 ==> Proceeds(body[j]))
      && WriteSucceeds(body[|body| - 1]) && body[|body| - 1].result.Eof?
    ensures var r := Run(p, url, generation, w);
      var body := w.response.value.body;
      && r.finished && r.progress.completed && !r.progress.active && r.progress.err.None?
      && r.file == Some(w.existing.GetOr([]) + Bytes(body))
      && (|Bytes(body)| == w.response.value.contentLength ==> r.progress.downloaded == r.progress.size)
  {
    var body := w.response.value.body;
    var n := |body| - 1;
    var k := ResumeOffset(w.existing);
    var q := Running(w.response.value.contentLength, k);
    var contents := w.existing.GetOr([]);
    StreamEndsAt(q, contents, body, n);
    assert body == body[..n] + [body[n]];
    BytesAppend(body[..n], [body[n]]);
    assert [body[n]][1..] == [];
    assert Bytes([body[n]]) == body[n].data;
    assert Stream(q, contents, body).file == contents + Bytes(body[..n]) + body[n].data;
    assert contents + Bytes(body[..n]) + body[n].data == contents + Bytes(body);
    StreamAccounts(q, w.existing.GetOr([]), body);
  }

  /**
   * The kind of the first Read event that ends the loop decides the final state: end of stream
   * completes; an error seen after the context was cancelled by a stop request stops without an
   * error; another error seen after the context ended records context.Canceled, the only error a
   * context made by context.WithCancel can end with; any other
   * read or write error is recorded as is.
   */
  lemma RunTerminates(p: Progress, url: string, generation: nat, w: World, i: nat)
    requires Starts(w)
    requires var body := w.response.value.body;
      && i < |body| && (forall j :: 0 <= j < i ==> Proceeds(body[j])) && !Proceeds(body[i])
    ensures var r := Run(p, url, generation, w).progress;
      var c := w.response.value.body[i];
      && Run(p, url, generation, w).finished && !r.active
      && (!WriteSucceeds(c) ==> !r.completed && r.err == c.writeErr)
      && (WriteSucceeds(c) ==>
            match c.result
            case More => false
            case Eof => r.completed && r.err.None?
            case ReadError(e, ctxDone) =>
              && !r.completed
              && (ctxDone && IsCanceled(e) ==> r.err.None?)
              && (ctxDone && !IsCanceled(e) ==> r.err == Some(Canceled))
              && (!ctxDone ==> r.err == Some(e)))
  {
    var k := ResumeOffset(w.existing);
    StreamEndsAt(Running(w.response.value.contentLength, k), w.existing.GetOr([]), w.response.value.body, i);
  }
}
