/** `HTTPRequestHandler.do_PUT`: one upload, from the request headers to the
    response, inside a private workspace that is removed on every way out. */
module Handler {
  import opened Basics
  import opened Text
  import opened Http
  import opened Upload
  import opened Artifacts

  /** The command line, read once at start-up: the Makefile, the port and the
      `-o` patterns in the order given. */
  datatype Config = Config(makefile: string, port: int, outputs: seq<string>)

  /** What `subprocess.run(..., capture_output=True)` reports of the build. */
  datatype BuildResult = BuildResult(returnCode: int, stderr: seq<byte>)

  /** The collaborators whose behaviour lies outside this model:
      - `make(makefile, name, input)`: the build run in a workspace holding
        only the uploaded file `name` with contents `input`;
      - `guessAllExtensions(mime)`: `mimetypes.guess_all_extensions`;
      - `glob(pattern)`: `glob.glob(pattern, root_dir=dpath)` over the
        workspace as the build left it;
      - `zip(entries)`: the bytes of the archive holding those entries. */
  datatype Env = Env(
    make: (string, string, seq<byte>) -> BuildResult,
    guessAllExtensions: string -> seq<string>,
    glob: string -> seq<string>,
    zip: seq<ZipEntry> -> seq<byte>)

  /** Exceptions that leave `do_PUT` uncaught: `int()` of a value that is not
      an integer (ValueError), and `open()` of a name that denotes a
      directory (IsADirectoryError). */
  datatype Fault = InvalidLength | InputIsDirectory

  /** How a request ends: with a response, with an exception (no response is
      written), or never, when the client sends fewer bytes than it declared. */
  datatype Outcome = Responded(response: Response) | Raised(fault: Fault) | Hangs

  /** Whether the request gets as far as reading its body, and with what file
      name and declared length. */
  datatype Admission = Rejected(outcome: Outcome) | Admitted(name: string, length: int)

  /** The file in the workspace that the archive is written to (make_server.py:69). */
  const ArchiveName: string := "resp.zip"

  /** The base names that `os.path.join(dpath, name)` turns into a directory. */
  predicate NamesDirectory(name: string)
  {
    name == "" || name == "." || name == ".."
  }

  /** make_server.py:36-47: the length check, then the opening of the input file. */
  function Admit(path: string, headers: Headers): (a: Admission)
    ensures GetHeader(headers, "Content-Length").None? ==> a == Rejected(Responded(LengthRequired))
    ensures a.Admitted? <==>
      GetHeader(headers, "Content-Length").Some? && ParseInt(GetHeader(headers, "Content-Length").value).Some? &&
      !NamesDirectory(Basename(path))
    // An admitted name is a plain, non-empty file name: it has no `/` in it.
    ensures a.Admitted? ==>
      a.name == Basename(path) && a.name != "" && '/' !in a.name &&
      a.length == ParseInt(GetHeader(headers, "Content-Length").value).value
  {
    var name := Basename(path);
    match GetHeader(headers, "Content-Length")
    case None => Rejected(Responded(LengthRequired))
    case Some(v) =>
      match ParseInt(v)
      case None => Rejected(Raised(InvalidLength))
      case Some(n) => if NamesDirectory(name) then Rejected(Raised(InputIsDirectory)) else Admitted(name, n)
  }

  /** The input file as the build finds it, or None when the build is never
      reached. It holds exactly the declared number of bytes, none for a length
      of zero or below, taken from the front of the body. */
  function StagedInput(path: string, headers: Headers, body: seq<byte>): (staged: Option<seq<byte>>)
    ensures staged.Some? <==> Admit(path, headers).Admitted? && Admit(path, headers).length <= |body|
    ensures staged.Some? ==>
      |staged.value| == Max(0, Admit(path, headers).length) && staged.value == body[..|staged.value|]
  {
    match Admit(path, headers)
    case Rejected(_) => None
    case Admitted(_, length) => if |body| < length then None else Some(body[..Max(0, length)])
  }

  /** make_server.py:63-72: the entries of the archive answering a successful build. */
  function ResponseEntries(cfg: Config, env: Env, dpath: string, headers: Headers): (es: seq<ZipEntry>)
    // Every entry reads the file of the workspace that its name denotes.
    ensures forall e :: e in es ==> e.file == PathJoin(dpath, e.arcname)
  {
    var mimes := AcceptMimes(GetHeader(headers, "Accept"));
    var globs := OutputPatterns(cfg.outputs, mimes, env.guessAllExtensions);
    ArchiveEntries(dpath, CollectPaths(globs, env.glob))
  }

  /** make_server.py:53-77: the build, then the answer: 500 with the build's error
      output when it fails, otherwise 201 with the archive of its outputs. */
  function Answer(cfg: Config, env: Env, dpath: string, headers: Headers, name: string, input: seq<byte>): (o: Outcome)
    ensures var b := env.make(cfg.makefile, name, input);
      (b.returnCode != 0 <==> o == Responded(CommandError(b.stderr))) &&
      (b.returnCode == 0 <==> o == Responded(Created(env.zip(ResponseEntries(cfg, env, dpath, headers)))))
  {
    var b := env.make(cfg.makefile, name, input);
    if b.returnCode != 0 then Responded(CommandError(b.stderr))
    else Responded(Created(env.zip(ResponseEntries(cfg, env, dpath, headers))))
  }

  /** make_server.py:34-77: what `do_PUT` does with a request whose body is `body`,
      in a workspace at `dpath`. */
  function PutOutcome(cfg: Config, env: Env, dpath: string, path: string, headers: Headers, body: seq<byte>): (o: Outcome)
    // No Content-Length: 411 with the fixed text, and nothing else happens.
    ensures GetHeader(headers, "Content-Length").None? <==> o == Responded(LengthRequired)
    // A Content-Length that int() rejects is not a 411: the exception escapes.
    ensures o == Raised(InvalidLength) <==>
      GetHeader(headers, "Content-Length").Some? && ParseInt(GetHeader(headers, "Content-Length").value).None?
    ensures o == Raised(InputIsDirectory) <==>
      GetHeader(headers, "Content-Length").Some? && ParseInt(GetHeader(headers, "Content-Length").value).Some? &&
      NamesDirectory(Basename(path))
    // The build runs exactly when the request is answered with something other than 411.
    ensures StagedInput(path, headers, body).Some? <==> o.Responded? && o.response != LengthRequired
    ensures o.Responded? ==> o.response.status in {411, 500, 201}
    ensures StagedInput(path, headers, body).Some? ==>
      o == Answer(cfg, env, dpath, headers, Basename(path), StagedInput(path, headers, body).value)
  {
    match Admit(path, headers)
    case Rejected(early) => early
    case Admitted(name, length) =>
      if |body| < length then Hangs
      else Answer(cfg, env, dpath, headers, name, body[..Max(0, length)])
  }

  /** A declared length of zero or below is not a missing length: an empty
      input file is built and the answer is the build's. */
  lemma NonPositiveLengthIsBuilt(cfg: Config, env: Env, dpath: string, path: string, headers: Headers, body: seq<byte>)
    requires GetHeader(headers, "Content-Length").Some?
    requires ParseInt(GetHeader(headers, "Content-Length").value).Some?
    requires ParseInt(GetHeader(headers, "Content-Length").value).value <= 0
    requires !NamesDirectory(Basename(path))
    ensures StagedInput(path, headers, body) == Some([])
    ensures var o := PutOutcome(cfg, env, dpath, path, headers, body);
      o.Responded? && o.response.status != 411
  {
    var n := ParseInt(GetHeader(headers, "Content-Length").value).value;
    assert Admit(path, headers) == Admitted(Basename(path), n);
    assert body[..Max(0, n)] == [];
    assert StagedInput(path, headers, body) == Some([]);
  }

  /** `Content-Length: 0`, exactly as a client writes it, takes that path. */
  lemma ZeroLengthIsBuilt(cfg: Config, env: Env, dpath: string, path: string, headers: Headers, body: seq<byte>)
    requires GetHeader(headers, "Content-Length") == Some("0")
    requires !NamesDirectory(Basename(path))
    ensures StagedInput(path, headers, body) == Some([])
  {
    ParseShow(0);
    assert Show(0) == "0";
    NonPositiveLengthIsBuilt(cfg, env, dpath, path, headers, body);
  }

  /** A body declared as `str(n)` bytes long, for n >= 0, stages exactly n bytes. */
  lemma DeclaredLengthIsStaged(path: string, headers: Headers, body: seq<byte>, n: nat)
    requires GetHeader(headers, "Content-Length") == Some(Show(n))
    requires !NamesDirectory(Basename(path))
    requires n <= |body| && |DecimalDigits(n)| <= MaxStrDigits
    ensures StagedInput(path, headers, body) == Some(body[..n])
  {
    ParseShow(n);
  }

  /** The uploaded file is named after the last segment of the request
      path, so it lands directly inside the workspace. */
  lemma InputStaysInWorkspace(dpath: string, path: string, headers: Headers)
    requires Admit(path, headers).Admitted?
    ensures '/' !in Admit(path, headers).name
    ensures Basename(PathJoin(dpath, Admit(path, headers).name)) == Admit(path, headers).name
  {
    BasenameOfJoin(dpath, Admit(path, headers).name);
  }

  /** A successful answer carries one archive entry per collected path, in
      order, named by that path. */
  lemma ArchiveFollowsPatterns(cfg: Config, env: Env, dpath: string, headers: Headers)
    ensures var mimes := AcceptMimes(GetHeader(headers, "Accept"));
      var paths := CollectPaths(OutputPatterns(cfg.outputs, mimes, env.guessAllExtensions), env.glob);
      ArcNames(ResponseEntries(cfg, env, dpath, headers)) == paths &&
      paths == CollectPaths(cfg.outputs, env.glob) + CollectPaths(DerivedPatterns(mimes, env.guessAllExtensions), env.glob)
  {
    var mimes := AcceptMimes(GetHeader(headers, "Accept"));
    var paths := CollectPaths(OutputPatterns(cfg.outputs, mimes, env.guessAllExtensions), env.glob);
    ArchiveNamesArePaths(dpath, paths);
    CollectPathsOrder(cfg.outputs, DerivedPatterns(mimes, env.guessAllExtensions), env.glob);
  }

  /** The request as the transport hands it to the handler. */
  class PutHandler {
    const path: string
    const headers: Headers
    const rfile: ByteSource

    constructor (path: string, headers: Headers, rfile: ByteSource)
      ensures this.path == path && this.headers == headers && this.rfile == rfile
    {
      this.path := path;
      this.headers := headers;
      this.rfile := rfile;
    }

    /** make_server.py:53-77: runs the build on the staged input and answers.
        A successful build's archive is written to `resp.zip` in the workspace
        and the answer's body is read back from that file. */
    method Respond(cfg: Config, env: Env, ws: Workspace, name: string, input: seq<byte>) returns (outcome: Outcome)
      modifies ws
      ensures outcome == Answer(cfg, env, ws.path, headers, name, input)
      ensures ws.released && ws.files == map[]
      ensures ws.created ==
        old(ws.created) + (if env.make(cfg.makefile, name, input).returnCode == 0 then {ArchiveName} else {})
    {
      var proc := env.make(cfg.makefile, name, input);
      if proc.returnCode != 0 {
        ws.Release();
        outcome := Responded(CommandError(proc.stderr));
        return;
      }
      var mimes := AcceptMimes(GetHeader(headers, "Accept"));
      var globs := OutputPatterns(cfg.outputs, mimes, env.guessAllExtensions);
      var paths := CollectPaths(globs, env.glob);
      var entries := Package(ws.path, paths);
      ws.Create(ArchiveName);
      ws.Append(ArchiveName, env.zip(entries));
      var archive := ws.files[ArchiveName];
      ws.Release();
      outcome := Responded(Created(archive));
    }

    /** make_server.py:33-77. `dname` is the fresh directory tempfile chose. The client
        is taken to send at least the declared number of bytes. `reqs` and
        `got` record the reads of the body, read by read. */
    method DoPut(cfg: Config, env: Env, dname: string)
      returns (outcome: Outcome, ws: Workspace, ghost staged: Option<seq<byte>>,
               ghost reqs: seq<int>, ghost got: seq<seq<byte>>)
      requires Admit(path, headers).Admitted? ==> Admit(path, headers).length <= |rfile.pending|
      modifies rfile
      ensures outcome == PutOutcome(cfg, env, dname, path, headers, old(rfile.pending))
      ensures staged == StagedInput(path, headers, old(rfile.pending))
      // The workspace was new and is gone, on every way out.
      ensures fresh(ws) && ws.path == dname && ws.released && ws.files == map[]
      // The input file is opened only once the request is admitted; the only
      // other file the handler opens is the archive of a successful build.
      ensures staged.None? <==> ws.created == {}
      ensures staged.Some? ==>
        ws.created == {Basename(path)} + (if outcome.Responded? && outcome.response.status == 201 then {ArchiveName} else {})
      // Only the staged bytes are taken from the body, in bounded reads.
      ensures rfile.pending == old(rfile.pending)[(if staged.Some? then |staged.value| else 0)..]
      ensures staged.None? ==> reqs == [] && got == []
      ensures staged.Some? ==> ChunkedCopy(Admit(path, headers).length, reqs, got) && Concat(got) == staged.value
    {
      ghost var body := rfile.pending;
      ws := new Workspace(dname);
      var name := Basename(path);
      var declared := GetHeader(headers, "Content-Length");
      if declared.None? {
        assert Admit(path, headers) == Rejected(Responded(LengthRequired));
        ws.Release();
        outcome, staged, reqs, got := Responded(LengthRequired), None, [], [];
        return;
      }
      var parsed := ParseInt(declared.value);
      if parsed.None? {
        assert Admit(path, headers) == Rejected(Raised(InvalidLength));
        ws.Release();
        outcome, staged, reqs, got := Raised(InvalidLength), None, [], [];
        return;
      }
      var length := parsed.value;
      if NamesDirectory(name) {
        assert Admit(path, headers) == Rejected(Raised(InputIsDirectory));
        ws.Release();
        outcome, staged, reqs, got := Raised(InputIsDirectory), None, [], [];
        return;
      }
      assert Admit(path, headers) == Admitted(name, length);
      assert length <= |body|;
      reqs, got := Receive(rfile, ws, name, length);
      var input := ws.files[name];
      assert StagedInput(path, headers, body) == Some(body[..Max(0, length)]);
      assert input == body[..Max(0, length)];
      staged := Some(input);
      outcome := Respond(cfg, env, ws, name, input);
    }
  }
}
