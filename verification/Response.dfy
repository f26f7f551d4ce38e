/** `http_response` and `http_response_file`. The value `Response` and the functions
    on it are the specification; the class `HttpResponse` holds the fields that the
    engine updates. The virtual methods that the file sink overrides choose their
    behaviour by the constant `sink`. */
module Responses {
  import opened Text
  import opened OrderedMap
  import opened FileName
  import Url

  datatype Sink = Memory | File

  /** The fields of `http_response_file`, and the part of the file system it sees:
      the contents of the existing files. */
  datatype FileState = FileState(filename: string, filepath: string, isOpen: bool, disk: map<string, string>)

  datatype Response = Response(
    sink: Sink,
    version: string, status: int, description: string,
    headers: Headers, bodySize: nat, body: string, progress: nat,
    url: string, sendHeaders: Headers, httpAuth: (string, string),
    file: FileState)

  /** What `reset` puts into a response. */
  const VERSION_1_0 := "HTTP/1.0"
  const DEFAULT_DESCRIPTION := "OK"

  const SIZE_MODULUS := 0x1_0000_0000_0000_0000

  /** Conversion of an int to `size_t`. */
  function ToSize(n: int): nat
    requires INT_MIN <= n <= INT_MAX
  {
    if n < 0 then n + SIZE_MODULUS else n
  }

  function AppendBody(r: Response, c: char): Response {
    r.(body := r.body + [c], progress := r.progress + 1)
  }

  /** `setURL`; the file sink also takes its file name from the URL. */
  function WithUrl(r: Response, url: string): Response {
    var r1 := r.(url := url);
    if r.sink == File && Url.Split(url).Some? then
      r1.(file := r.file.(filename := Url.Split(url).value.file))
    else r1
  }

  /** `OpenFile`; `canOpen` is the operating system's answer to the open call. */
  function AfterOpenFile(f: FileState, canOpen: bool): FileState {
    if f.isOpen then f
    else
      var path := FreePath(f.filename, f.disk.Keys);
      if canOpen then f.(filepath := path, isOpen := true, disk := f.disk[path := ""])
      else f.(filepath := path)
  }

  function Contents(f: FileState): string {
    if f.filepath in f.disk then f.disk[f.filepath] else ""
  }

  /** `flush` */
  function AfterFlush(r: Response, canOpen: bool): Response {
    if r.sink == Memory then r
    else
      var f := AfterOpenFile(r.file, canOpen);
      if f.isOpen then
        r.(file := f.(disk := f.disk[f.filepath := Contents(f) + r.body]), body := "")
      else r.(file := f)
  }

  function AfterCloseFile(f: FileState): FileState {
    f.(isOpen := false, filepath := "", filename := "")
  }

  /** `completed` */
  function AfterCompleted(r: Response): Response {
    if r.sink == Memory then r else r.(file := AfterCloseFile(r.file))
  }

  /** `reset`; the headers to send and the credentials stay. */
  function AfterReset(r: Response): Response {
    ResetFields(AfterCompleted(r))
  }

  function ResetFields(r: Response): Response {
    r.(version := VERSION_1_0, status := 0, description := DEFAULT_DESCRIPTION, headers := map[], bodySize := 0,
       body := "", progress := 0, url := "")
  }

  /** A new memory response. */
  function FreshResponse(): Response {
    Response(Memory, VERSION_1_0, 0, DEFAULT_DESCRIPTION, map[], 0, "", 0, "", map[], ("", ""),
             FileState("", "", false, map[]))
  }

  /** An open call that succeeds creates an empty file, under the name itself or with the
      least number that makes it new; one that fails creates nothing. */
  lemma OpenFileExactly(f: FileState, canOpen: bool) returns (k: nat)
    requires !f.isOpen
    ensures var g, path := AfterOpenFile(f, canOpen), AfterOpenFile(f, canOpen).filepath;
      && g.isOpen == canOpen && g.filename == f.filename && path !in f.disk
      && g.disk == (if canOpen then f.disk[path := ""] else f.disk)
      && (path == f.filename <==> f.filename !in f.disk)
      && (f.filename in f.disk ==> Numbered(f.filename, f.disk.Keys, path, k))
  {
    k := FreePathByName(f.filename, f.disk.Keys);
  }

  /** A completed file response is closed and forgets the file, which stays on disk. */
  lemma CompletedExactly(r: Response)
    ensures var done := AfterCompleted(r);
      && done == r.(file := done.file)
      && done.file == if r.sink == Memory then r.file else FileState("", "", false, r.file.disk)
  {
  }

  /** What `reset` leaves: the defaults, the headers to send, the credentials and the disk. */
  lemma ResetExactly(r: Response)
    ensures AfterReset(r) == Response(r.sink, "HTTP/1.0", 0, "OK", map[], 0, "", 0, "", r.sendHeaders, r.httpAuth,
      if r.sink == Memory then r.file else FileState("", "", false, r.file.disk))
  {
  }

  class HttpResponse {
    const sink: Sink
    var version: string
    var status: int
    var description: string
    var headers: Headers
    var bodySize: nat
    var body: string
    var progress: nat
    var url: string
    var sendHeaders: Headers
    var httpAuth: (string, string)
    // the file sink
    var filename: string
    var filepath: string
    var isOpen: bool
    var disk: map<string, string>

    function FileView(): FileState
      reads this
    {
      FileState(filename, filepath, isOpen, disk)
    }

    function View(): Response
      reads this
    {
      Response(sink, version, status, description, headers, bodySize, body, progress, url,
               sendHeaders, httpAuth, FileView())
    }

    constructor (sink: Sink, disk: map<string, string>)
      ensures View() == Response(sink, "HTTP/1.0", 0, "OK", map[], 0, "", 0, "", map[], ("", ""),
                                 FileState("", "", false, disk))
    {
      this.sink, this.disk := sink, disk;
      sendHeaders, httpAuth := map[], ("", "");
      version, status, description, headers := VERSION_1_0, 0, DEFAULT_DESCRIPTION, map[];
      bodySize, body, progress, url := 0, "", 0, "";
      filename, filepath, isOpen := "", "", false;
    }

    method Reset()
      modifies this
      ensures View() == AfterReset(old(View()))
    {
      if sink == File {
        CloseFile();
      }
      ResetBase();
    }

    method ResetBase()
      modifies `version, `status, `description, `headers, `bodySize, `body, `progress, `url
      ensures version == VERSION_1_0 && status == 0 && description == DEFAULT_DESCRIPTION && headers == map[]
      ensures bodySize == 0 && body == "" && progress == 0 && url == ""
    {
      version := VERSION_1_0;
      status := 0;
      description := DEFAULT_DESCRIPTION;
      headers := map[];
      bodySize := 0;
      body := "";
      progress := 0;
      url := "";
    }

    method SetHeaders(key: string, val: string)
      modifies `headers
      ensures headers == Insert(old(headers), key, val)
    {
      if key !in headers {
        headers := headers[key := val];
      }
    }

    method SetBody(c: char)
      modifies this
      ensures View() == AppendBody(old(View()), c)
    {
      body := body + [c];
      progress := progress + 1;
    }

    method SetUrl(newUrl: string)
      modifies this
      ensures View() == WithUrl(old(View()), newUrl)
    {
      url := newUrl;
      if sink == File {
        var parts := Url.Split(newUrl);
        if parts.Some? {
          filename := parts.value.file;
        }
      }
    }

    method Flush(canOpen: bool)
      modifies this
      ensures View() == AfterFlush(old(View()), canOpen)
    {
      if sink == Memory {
        return;
      }
      var ok := OpenFile(canOpen);
      if !ok {
        return;
      }
      disk := disk[filepath := Contents(FileView()) + body];
      body := "";
    }

    method OpenFile(canOpen: bool) returns (ok: bool)
      modifies this
      ensures FileView() == AfterOpenFile(old(FileView()), canOpen)
      ensures View() == old(View()).(file := FileView())
      ensures ok == isOpen
    {
      var i := 1;
      if isOpen {
        return true;
      }
      filepath := filename;
      ghost var k := 0;
      while filepath in disk
        invariant View() == old(View()).(file := FileView()) && FileView() == old(FileView()).(filepath := filepath)
        invariant i == k + 1 && filepath == Candidate(filename, k)
        invariant forall j :: 0 <= j < k ==> Candidate(filename, j) in disk.Keys
        invariant FirstFree(filename, disk.Keys, 0) == FirstFree(filename, disk.Keys, k)
        decreases |disk.Keys| - k
      {
        Pigeonhole(filename, disk.Keys, k + 1);
        filepath := filename + "." + Decimal(i);
        i := i + 1;
        k := k + 1;
      }
      if canOpen {
        disk := disk[filepath := ""];
        isOpen := true;
      }
      return isOpen;
    }

    method CloseFile()
      modifies this
      ensures View() == old(View()).(file := AfterCloseFile(old(FileView())))
    {
      isOpen, filepath, filename := false, "", "";
    }

    method Completed()
      modifies this
      ensures View() == AfterCompleted(old(View()))
    {
      if sink == File {
        CloseFile();
      }
    }
  }
}
