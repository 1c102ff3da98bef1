/**
 * The request-level decisions of the HTTP handlers that drive the registry: validating an add
 * request and choosing where the file goes, toggling a download between stopped and running,
 * and deleting one. Everything the handlers ask of the operating system (the working directory,
 * os.Stat, the clock) arrives as a parameter.
 */
module Handler {
  import opened Wrappers
  import opened Transfer
  import opened Item
  import opened Manager
  import Strconv
  import Dto

  /** The parts of a URL the validity rule looks at, as url.ParseRequestURI reports them. */
  datatype ParsedUrl = ParsedUrl(scheme: string, host: string)

  /** The JSON a handler writes. */
  datatype Body =
    | NoBody
    | ErrBody(err: string)            // encodeErr: {"err": ...}
    | FileBody(file: Dto.FileResponse)
    | TextBody(text: string)

  /** A handler's answer: status code and body. */
  datatype Reply = Reply(status: int, body: Body)

  const StatusOK := 200
  const StatusAccepted := 202
  const StatusBadRequest := 400
  const StatusInternalServerError := 500

  // ---------------------------------------------------------------------------------------------
  // URLs and file names

  /** isUrlValid: the URL parses, its scheme is http or https, and its host is not empty. */
  function IsUrlValid(parsed: Option<ParsedUrl>): bool {
    if parsed.None? then false
    else if parsed.value.scheme != "http" && parsed.value.scheme != "https" then false
    else if parsed.value.host == "" then false
    else true
  }

  /** The position of the first '/' in s. */
  function IndexOfSlash(s: string): (i: nat)
    requires '/' in s
    ensures i < |s| && s[i] == '/' && '/' !in s[..i]
  {
    if s[0] == '/' then 0
    else
      var k := IndexOfSlash(s[1..]);
      assert s[..k + 1] == [s[0]] + s[1..][..k];
      k + 1
  }

  /** strings.Split(s, "/"): the pieces between the slashes; never empty, "" gives [""]. */
  function Split(s: string): (parts: seq<string>)
    ensures |parts| >= 1
    ensures forall i :: 0 <= i < |parts| ==> '/' !in parts[i]
    decreases |s|
  {
    if '/' !in s then [s]
    else
      var i := IndexOfSlash(s);
      [s[..i]] + Split(s[i + 1..])
  }

  /** strings.Join(parts, "/"). */
  function JoinParts(parts: seq<string>): string
    requires |parts| >= 1
  {
    if |parts| == 1 then parts[0] else parts[0] + "/" + JoinParts(parts[1..])
  }

  /** Joining the pieces of a split gives back the string. */
  lemma {:induction false} JoinSplit(s: string)
    ensures JoinParts(Split(s)) == s
    decreases |s|
  {
    if '/' in s {
      var i := IndexOfSlash(s);
      JoinSplit(s[i + 1..]);
      assert s == s[..i] + "/" + s[i + 1..];
    }
  }

  /** Splitting the join of slash-free pieces gives back the pieces. */
  lemma {:induction false} SplitJoin(parts: seq<string>)
    requires |parts| >= 1
    requires forall i :: 0 <= i < |parts| ==> '/' !in parts[i]
    ensures Split(JoinParts(parts)) == parts
  {
    if |parts| > 1 {
      var s := JoinParts(parts);
      var rest := JoinParts(parts[1..]);
      assert s == parts[0] + "/" + rest;
      assert s[|parts[0]|] == '/';
      assert s[..|parts[0]|] == parts[0];
      var i := IndexOfSlash(s);
      assert i == |parts[0]|;
      assert s[i + 1..] == rest;
      SplitJoin(parts[1..]);
    }
  }

  /** The last piece of a split is the text after the last '/' of s, or all of s. */
  lemma {:induction false} LastPiece(s: string)
    ensures var p := Split(s); var r := p[|p| - 1];
      && |r| <= |s| && r == s[|s| - |r|..]
      && (|r| == |s| || s[|s| - |r| - 1] == '/')
    decreases |s|
  {
    if '/' in s {
      var i := IndexOfSlash(s);
      var t := s[i + 1..];
      var p := Split(t);
      var r := p[|p| - 1];
      assert Split(s)[|Split(s)| - 1] == r;
      LastPiece(t);
      assert |t| == |s| - i - 1;
      assert t[|t| - |r|..] == s[|s| - |r|..];
      assert |r| == |t| ==> s[|s| - |r| - 1] == s[i];
      assert |r| < |t| ==> s[|s| - |r| - 1] == t[|t| - |r| - 1];
    }
  }

  /**
   * getFilenameFromUrl: the text after the last '/', the whole URL when it has none. The
   * fallback to the timestamp is never taken, because a split is never empty.
   */
  function GetFilenameFromUrl(url: string, timestamp: string): (name: string)
    ensures '/' !in name
    ensures |name| <= |url| && name == url[|url| - |name|..]
    ensures |name| == |url| || url[|url| - |name| - 1] == '/'
  {
    var parts := Split(url);
    LastPiece(url);
    if |parts| > 0 then parts[|parts| - 1] else timestamp
  }

  /** A URL ending in '/' gives an empty file name; one without '/' is its own file name. */
  lemma FilenameFromUrlEdges(url: string, timestamp: string)
    ensures |url| > 0 && url[|url| - 1] == '/' ==> GetFilenameFromUrl(url, timestamp) == ""
    ensures '/' !in url ==> GetFilenameFromUrl(url, timestamp) == url
  {
  }

  /** filepath.Join for two elements: empty elements are dropped and one separator put between the others. */
  function Join(dir: string, name: string): string {
    if dir == "" then name
    else if name == "" then dir
    else if dir[|dir| - 1] == '/' then dir + name
    else dir + "/" + name
  }

  /**
   * Joining puts the name at the end of the path, after a '/' and behind the directory, so the
   * name is also what getFilenameFromUrl reads back from the path.
   */
  lemma JoinPlacesName(dir: string, name: string, timestamp: string)
    ensures dir == "" ==> Join(dir, name) == name
    ensures name == "" ==> Join(dir, name) == dir
    ensures dir != "" && name != "" ==>
      var j := Join(dir, name);
      && |j| > |name| && j[..|dir|] == dir && j[|j| - |name|..] == name && j[|j| - |name| - 1] == '/'
    ensures dir != "" && name != "" && '/' !in name ==> GetFilenameFromUrl(Join(dir, name), timestamp) == name
  {
    if dir != "" && name != "" {
      var j := Join(dir, name);
      assert j[..|dir|] == dir;
      assert j[|j| - |name|..] == name;
      assert j[|j| - |name| - 1] == '/';
    }
  }

  /** The file name before disambiguation: the one supplied, else the URL's last piece. */
  function BaseName(data: Dto.AddDownloadDto, timestamp: string): string {
    if data.Filename == "" then GetFilenameFromUrl(data.Url, timestamp) else data.Filename
  }

  /**
   * The file name and destination path: if the joined path exists, the name gets the timestamp
   * and a '-' in front, once, whether or not that path exists too.
   */
  function Destination(dir: string, base: string, existing: set<string>, timestamp: string): (r: (string, string))
    ensures r.1 == Join(dir, r.0)
    ensures r.0 == base <==> Join(dir, base) !in existing
    ensures r.0 != base ==> r.0 == timestamp + "-" + base
  {
    var finalPath := Join(dir, base);
    if finalPath in existing then
      var name := timestamp + "-" + base;
      (name, Join(dir, name))
    else (base, finalPath)
  }

  /** The add request passes validation: the URL, then the directory. */
  predicate Admitted(data: Dto.AddDownloadDto, parsed: Option<ParsedUrl>, wd: Option<string>, dirStat: Option<bool>) {
    && data.Url != "" && IsUrlValid(parsed)
    && (if data.Dir == "" then wd.Some? else dirStat == Some(true))
  }

  /**
   * The directory the file name is joined to: the working directory when none was given.
   * A given directory is only checked: the variable that should hold it is never assigned,
   * so the path is relative to the working directory of the process.
   */
  function DirectoryUsed(data: Dto.AddDownloadDto, wd: Option<string>): string {
    if data.Dir == "" then wd.GetOr("") else ""
  }

  // ---------------------------------------------------------------------------------------------
  // Handlers

  /**
   * AddAndStartDownloadHandler. parsed is what url.ParseRequestURI makes of data.Url; wd is
   * os.Getwd (None on error); dirStat is os.Stat of data.Dir (None on error, else whether it is
   * a directory); existing is the set of paths PathExists reports; timestamp is the formatted clock.
   */
  method AddAndStartDownloadHandler(m: DownloadManager, data: Dto.AddDownloadDto, parsed: Option<ParsedUrl>,
                                    wd: Option<string>, dirStat: Option<bool>, existing: set<string>,
                                    timestamp: string)
    returns (reply: Reply)
    requires m.Valid()
    modifies m`Downloads, m`idGetter, m`Events
    ensures m.Valid()
    ensures !Admitted(data, parsed, wd, dirStat) ==>
      && reply.status != StatusAccepted
      && m.Downloads == old(m.Downloads) && m.idGetter == old(m.idGetter) && m.Events == old(m.Events)
    ensures (|| data.Url == "" || parsed.None?
             || (parsed.value.scheme != "http" && parsed.value.scheme != "https")
             || parsed.value.host == "") ==>
      reply == Reply(StatusBadRequest, ErrBody("url is invalid"))
    ensures data.Url != "" && parsed.Some? && parsed.value.scheme in {"http", "https"} && parsed.value.host != "" ==>
      && (data.Dir == "" && wd.None? ==> reply == Reply(StatusInternalServerError, ErrBody("could not access directory")))
      && (data.Dir != "" && dirStat.None? ==> reply == Reply(StatusInternalServerError, ErrBody("could not access directory")))
      && (data.Dir != "" && dirStat == Some(false) ==> reply == Reply(StatusInternalServerError, ErrBody("directory is file ")))
    ensures Admitted(data, parsed, wd, dirStat) ==>
      var target := Destination(DirectoryUsed(data, wd), BaseName(data, timestamp), existing, timestamp);
      var n := |old(m.Downloads)|;
      && |m.Downloads| == n + 1 && m.Downloads[..n] == old(m.Downloads)
      && var item := m.Downloads[n];
      && fresh(item)
      && item.Id == old(m.idGetter) && m.idGetter == old(m.idGetter) + 1
      && item.Url == data.Url && item.Filename == target.0 && item.Filepath == target.1
      && item.Status() == Progress(false, false, 0, 0, None)
      && m.Events == old(m.Events) + [Spawn(item.Id, 0)]
      && reply == Reply(StatusAccepted, FileBody(Dto.FileResponse(item.Id, item.Filename)))
  {
    if data.Url == "" || !IsUrlValid(parsed) {
      return Reply(StatusBadRequest, ErrBody("url is invalid"));
    }
    var dir: string;
    if data.Dir == "" {
      if wd.None? {
        return Reply(StatusInternalServerError, ErrBody("could not access directory"));
      }
      dir := wd.value;
    } else {
      if dirStat.None? {
        return Reply(StatusInternalServerError, ErrBody("could not access directory"));
      }
      if !dirStat.value {
        return Reply(StatusInternalServerError, ErrBody("directory is file "));
      }
      dir := "";
    }
    var filename := if data.Filename == "" then GetFilenameFromUrl(data.Url, timestamp) else data.Filename;
    var finalPath := Join(dir, filename);
    if finalPath in existing {
      filename := timestamp + "-" + filename;
      finalPath := Join(dir, filename);
    }
    var item := m.AddDownload(data.Url, finalPath, filename);
    m.StartDownload(item);
    assert m.Downloads[..|old(m.Downloads)|] == old(m.Downloads);
    return Reply(StatusAccepted, FileBody(Dto.FileResponse(item.Id, item.Filename)));
  }

  /**
   * The two tests of ToggleHandler on an item of the registry: an active item is stopped, an
   * item neither active nor completed is resumed, a completed one is left alone. Stopping does
   * not clear Active, so the second test cannot also resume an item that was just stopped.
   */
  method Toggle(m: DownloadManager, item: DownloadItem)
    requires m.Valid() && item in m.Downloads
    modifies m`Events, m.Downloads
    ensures m.Valid()
    ensures forall it :: it in m.Downloads ==> it.Status() == old(it.Status())
    ensures forall it :: it in m.Downloads && it.Id != item.Id ==> it.Ctx == old(it.Ctx)
    ensures item.Active ==>
      item.Ctx == old(item.Ctx).(done := true) && m.Events == old(m.Events) + [CancelRun(item.Id, item.Ctx.generation)]
    ensures !item.Active && !item.Completed ==>
      item.Ctx == Context(old(item.Ctx.generation) + 1, false) && m.Events == old(m.Events) + [Spawn(item.Id, item.Ctx.generation)]
    ensures !item.Active && item.Completed ==> item.Ctx == old(item.Ctx) && m.Events == old(m.Events)
  {
    ghost var k :| 0 <= k < |m.Downloads| && m.Downloads[k] == item;
    FindsItem(m.Downloads, m.idGetter, k);
    forall it | it in m.Downloads && it.Id != item.Id
      ensures it != item
    {
    }
    if item.Active {
      m.StopDownload(item);
    }
    if !item.Active && !item.Completed {
      m.ResumeDownload(item.Id);
    }
  }

  /** ToggleHandler: a malformed or unknown id is an error that changes nothing. */
  method ToggleHandler(m: DownloadManager, idStr: string) returns (reply: Reply, item: DownloadItem?)
    requires m.Valid()
    modifies m`Events, m.Downloads
    ensures m.Valid()
    ensures forall it :: it in m.Downloads ==> it.Status() == old(it.Status())
    ensures item == null ==> m.Events == old(m.Events) && forall it :: it in m.Downloads ==> it.Ctx == old(it.Ctx)
    ensures match Strconv.Atoi(idStr)
      case None => reply == Reply(StatusInternalServerError, ErrBody("wrong id : " + idStr)) && item == null
      case Some(id) =>
        match Find(m.Downloads, id)
        case None =>
          reply == Reply(StatusInternalServerError, ErrBody("downloadItem with id:" + idStr + " not found")) && item == null
        case Some(i) => reply == Reply(StatusOK, NoBody) && item == m.Downloads[i]
    ensures item != null ==>
      && (forall it :: it in m.Downloads && it.Id != item.Id ==> it.Ctx == old(it.Ctx))
      && (item.Active ==>
            item.Ctx == old(item.Ctx).(done := true) && m.Events == old(m.Events) + [CancelRun(item.Id, item.Ctx.generation)])
      && (!item.Active && !item.Completed ==>
            item.Ctx == Context(old(item.Ctx.generation) + 1, false) && m.Events == old(m.Events) + [Spawn(item.Id, item.Ctx.generation)])
      && (!item.Active && item.Completed ==> item.Ctx == old(item.Ctx) && m.Events == old(m.Events))
  {
    var parsedId := Strconv.Atoi(idStr);
    if parsedId.None? {
      return Reply(StatusInternalServerError, ErrBody("wrong id : " + idStr)), null;
    }
    var id := parsedId.value;
    item := m.GetItemById(id);
    if item == null {
      return Reply(StatusInternalServerError, ErrBody("downloadItem with id:" + idStr + " not found")), null;
    }
    Toggle(m, item);
    reply := Reply(StatusOK, NoBody);
  }

  /** DeleteHandler: a malformed id and an unknown id are errors that change nothing. */
  method DeleteHandler(m: DownloadManager, idStr: string) returns (reply: Reply)
    requires m.Valid()
    modifies m`Downloads, m`Events, m.Downloads
    ensures m.Valid()
    ensures forall it :: it in old(m.Downloads) ==> it.Status() == old(it.Status())
    ensures forall it :: it in old(m.Downloads) && (Strconv.Atoi(idStr).None? || it.Id != Strconv.Atoi(idStr).value) ==>
      it.Ctx == old(it.Ctx)
    ensures match Strconv.Atoi(idStr)
      case None =>
        && reply == Reply(StatusInternalServerError, ErrBody("wrong id: " + idStr))
        && m.Downloads == old(m.Downloads) && m.Events == old(m.Events)
      case Some(id) =>
        match old(Find(m.Downloads, id))
        case None =>
          && reply == Reply(StatusInternalServerError, ErrBody(NotFound(id)))
          && m.Downloads == old(m.Downloads) && m.Events == old(m.Events)
        case Some(i) =>
          var it := old(m.Downloads[i]);
          && reply == Reply(StatusOK, TextBody("removed"))
          && m.Downloads == old(m.Downloads[..i] + m.Downloads[i + 1..])
          && (old(it.Active) ==>
                it.Ctx == old(it.Ctx).(done := true) && m.Events == old(m.Events) + [CancelRun(id, it.Ctx.generation)])
          && (!old(it.Active) ==> it.Ctx == old(it.Ctx) && m.Events == old(m.Events))
  {
    var parsedId := Strconv.Atoi(idStr);
    if parsedId.None? {
      return Reply(StatusInternalServerError, ErrBody("wrong id: " + idStr));
    }
    var err := m.DeleteDownload(parsedId.value);
    if err.Some? {
      return Reply(StatusInternalServerError, ErrBody(err.value));
    }
    return Reply(StatusOK, TextBody("removed"));
  }
}
