/** One download: its identity, its progress fields and the worker that fills them. */
module Item {
  import opened Wrappers
  import opened Transfer
  import Dto

  /**
   * A cancellable context: which context.WithCancel call made it (contexts are never reused,
   * so a larger generation is a newer context) and whether its cancel function has been called.
   */
  datatype Context = Context(generation: nat, done: bool)

  class DownloadItem {
    // Set once when the item is created and never written again.
    const Id: int
    const Url: string
    const Filename: string
    const Filepath: string

    var Active: bool
    var Completed: bool
    var Downloaded: int
    var Size: int
    var Err: Option<Error>
    var Ctx: Context

    /** The fields the worker writes. */
    function Status(): Progress
      reads this
    {
      Progress(Active, Completed, Downloaded, Size, Err)
    }

    /** The item as AddDownload builds it: pending, with a fresh context. */
    constructor (id: int, url: string, filepath: string, filename: string)
      ensures Id == id && Url == url && Filepath == filepath && Filename == filename
      ensures Status() == Progress(false, false, 0, 0, None)
      ensures Ctx == Context(0, false)
    {
      Id, Url, Filepath, Filename := id, url, filepath, filename;
      Active, Completed, Downloaded, Size, Err := false, false, 0, 0, None;
      Ctx := Context(0, false);
    }

    /** getData: the snapshot copies every field and spells the error as its message, "" when there is none. */
    function GetData(): (d: Dto.DownloadItemDto)
      reads this
      ensures d.Id == Id && d.Url == Url && d.Filename == Filename && d.Filepath == Filepath
      ensures d.Active == Active && d.Completed == Completed && d.Downloaded == Downloaded && d.Size == Size
      ensures Err.Some? ==> d.Err == Message(Err.value)
      ensures d.Err == "" <==> Err.None? || Message(Err.value) == ""
    {
      var errStr := if Err.Some? then Message(Err.value) else "";
      Dto.DownloadItemDto(Id, Url, Filename, Filepath, Active, Completed, Downloaded, Size, errStr)
    }

    /** changeCtx: install a new context for the next run. */
    method ChangeCtx(ctx: Context)
      modifies this`Ctx
      ensures Ctx == ctx
    {
      Ctx := ctx;
    }

    /** Calling the current context's cancel function; calling it again changes nothing. */
    method Cancel()
      modifies this`Ctx
      ensures Ctx == old(Ctx).(done := true)
    {
      Ctx := Ctx.(done := true);
    }

    /** setDone: completed and no longer active; nothing else changes. */
    method SetDone()
      modifies this`Active, this`Completed
      ensures Completed && !Active
      ensures Status() == Done(old(Status()))
    {
      Completed := true;
      Active := false;
    }

    /** setStopped: no longer active; Completed and Err keep their values. */
    method SetStopped()
      modifies this`Active
      ensures !Active
      ensures Status() == Stopped(old(Status()))
    {
      Active := false;
    }

    /** setError: neither active nor completed, with the error recorded; progress stays. */
    method SetError(e: Error)
      modifies this`Active, this`Completed, this`Err
      ensures !Active && !Completed && Err == Some(e)
      ensures Status() == Failed(old(Status()), e)
    {
      Completed := false;
      Active := false;
      Err := Some(e);
    }

    /**
     * download: one run of the worker against the world w. It returns the destination file as the
     * run leaves it, whether the worker returned (false when every Read event has been consumed
     * and the last one asked for more), and the request it built.
     */
    method Download(w: World) returns (file: Option<seq<byte>>, finished: bool, request: Option<Request>)
      modifies this`Active, this`Completed, this`Downloaded, this`Size, this`Err
      ensures Outcome(Status(), file, finished, request) == Run(old(Status()), Url, Ctx.generation, w)
    {
      var resumeByte := ResumeOffset(w.existing);
      if w.requestErr.Some? {
        SetError(w.requestErr.value);
        return w.existing, true, None;
      }
      request := Some(Request(Url, Ctx.generation, RangeHeader(resumeByte)));
      if w.response.Failure? {
        SetError(w.response.error);
        return w.existing, true, request;
      }
      var resp := w.response.value;
      if w.openErr.Some? {
        SetError(w.openErr.value);
        return w.existing, true, request;
      }
      var contents := w.existing.GetOr([]);
      if resumeByte > 0 && w.seekErr.Some? {
        SetError(w.seekErr.value);
        return Some(contents), true, request;
      }

      Size := resp.contentLength + resumeByte;
      Downloaded := resumeByte;
      Active := true;
      Err := None;
      Completed := false;

      ghost var start := Status();
      ghost var spec := Stream(start, contents, resp.body);
      var i := 0;
      while i < |resp.body|
        invariant 0 <= i <= |resp.body|
        invariant Stream(Status(), contents, resp.body[i..]) == spec
      {
        var c := resp.body[i];
        assert resp.body[i..][0] == c && resp.body[i..][1..] == resp.body[i + 1..];
        if |c.data| > 0 {
          if c.writeErr.Some? {
            SetError(c.writeErr.value);
            return Some(contents), true, request;
          }
          Downloaded := Downloaded + |c.data|;
          contents := contents + c.data;
        }
        match c.result {
          case More =>
          case Eof =>
            SetDone();
            return Some(contents), true, request;
          case ReadError(e, ctxDone) =>
            if ctxDone {
              if IsCanceled(e) {
                SetStopped();
                return Some(contents), true, request;
              }
              SetError(Canceled);
              return Some(contents), true, request;
            }
            SetError(e);
            return Some(contents), true, request;
        }
        i := i + 1;
      }
      return Some(contents), false, request;
    }
  }
}
