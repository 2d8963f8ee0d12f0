# make_server: the PUT upload handler in Dafny

`make_server.py` is a small HTTP server. A client PUTs a file. The server
stores the file in a fresh temporary directory, runs `make` there with a
Makefile fixed at start-up, and answers with a zip archive of the build
products. Which products are returned is decided by the `-o` patterns and the
request's `Accept` header. This project models `HTTPRequestHandler.do_PUT`,
the request pipeline from the headers to the response, and proves what each
stage does.

Modules follow the stages of the handler:

- `Basics`: bytes, `Option`, and the ordered concatenation behind Python's
  nested list comprehensions (`Concat`, `FlatMap`) with its laws.
- `Text`: the string operations the handler relies on. These are
  `str.split`, `posixpath.basename`, `posixpath.join`, and `int()` of a
  header value. For `int()` the model covers the white space it skips around
  the number (ASCII tab, line feed, vertical tab, form feed, carriage return
  and space, and Unicode White_Space above ASCII, but not U+001C..U+001F), an
  optional sign, single `_` between digits, and the limit of 4300 digits.
- `Http`: case-insensitive header lookup and the three responses.
- `Upload`: the request body stream (`ByteSource`), the temporary directory
  (`Workspace`) and the chunked copy loop (`Receive`). The loop is specified
  by the log of reads it makes.
- `Artifacts`: covers the path from the Accept header to the archive.
  - The Accept header gives MIME types.
  - Each MIME type gives `*ext` patterns, placed after the `-o` patterns.
  - Each pattern gives the paths it matches.
  - Each path gives one zip entry (`ZipArchive`, `Package`).
- `Handler`: the whole request as a function of its inputs (`PutOutcome`).
  The imperative handler `PutHandler.DoPut` is proved equal to it.

The collaborators the handler calls are parameters of the model. They are
grouped in the `Env` record:

- the build, as a function from the Makefile, the file name and its contents
  to an exit code and the error output;
- `mimetypes.guess_all_extensions`;
- `glob.glob` over the workspace;
- the bytes of a zip file holding given entries.

How a request ends is an `Outcome`:

- a response;
- an exception that escapes the handler (`Raised`);
- `Hangs`, when the client sends fewer bytes than it declared. The copy loop
  then keeps reading an empty stream.

Some consequences of the code are easy to miss, and the model states them:

- A `Content-Length` that `int()` rejects raises `ValueError`. The code does
  not answer it with 411, because only `TypeError` is caught at
  make_server.py:40. The model gives `Raised(InvalidLength)`.
- A negative `Content-Length` is not rejected. The copy loop does not run at
  all, an empty file is built, and the build's answer is sent.
- The `Content-Length` check comes before the input file is opened. A request
  path whose basename is empty, `.` or `..` reaches `open()` on a directory,
  which raises. The model gives `Raised(InputIsDirectory)`.
- Nothing keeps the matched paths inside the workspace. For an absolute
  match, `os.path.join` drops the workspace path, and the archive entry reads
  the match itself (`Artifacts.AbsoluteMatchLeavesWorkspace`).
- `do_GET` at make_server.py:79-82 is a local function defined inside the
  body of `do_PUT`, not a method of the handler class. So it never answers a
  GET request with 404: GET is served by the base class
  `SimpleHTTPRequestHandler`. That function is not modelled.

## Model

| member | source | states |
|---|---|---|
| Upload.ByteSource.Read | make_server.py:49 | `rfile.read(n)` returns at most `n` bytes taken from the front of the stream, and at least one while any are left |
| Upload.Workspace.Create | make_server.py:47 | `open(ifpath, 'wb+')` makes the named file empty, leaves every other file as it was, and records the name as created |
| Upload.Workspace.Append | make_server.py:51 | `outf.write(data)` appends `data` to the named file and changes no other file |
| Upload.Workspace.Release | make_server.py:34 | leaving the `TemporaryDirectory` block removes the directory and all its files |
| Upload.Receive | make_server.py:46-51 | afterwards the file holds exactly the first max(0, L) bytes of the body, and the rest of the body is still unread. Only that file is created. The log of reads is a finished chunked copy: it ends at L, each read stops short of L, and together the reads delivered exactly those bytes |
| Upload.CopyTurnsExtend | make_server.py:48-50 | a read made at the position the earlier reads reached extends the copy's turns. The bytes delivered grow by that read's bytes |
| Upload.CopyingStep | make_server.py:48-51 | one turn of the loop keeps the loop invariant: the bytes delivered so far are the front of the body and the rest is still pending |
| Upload.CopyingDone | make_server.py:48 | when the position reaches L the copy is finished and has delivered `body[..max(0, L)]` |
| Upload.CopyStaysInBounds | make_server.py:48-50 | every read asks for between 1 and 65536 bytes, and never for more than L − pos. So the position never passes L |
| Upload.ReadCount | make_server.py:48-49 | a copy of L bytes takes at least L/65536 reads, rounded up, and at most L reads |
| Upload.NoReadsForEmptyBody | make_server.py:46-48 | a declared length of zero or below is copied without a single read |
| Http.GetHeader | make_server.py:39 | `headers.get`: gives None exactly when no field has the name, ignoring ASCII case. Otherwise gives the value of the first field that has it |
| Text.Trim | make_server.py:39 | the text `int()` reads the number from is no longer than the value, and it neither starts nor ends with white space that `int()` skips |
| Text.TrimLeadingRemovesSpaces | make_server.py:39 | what `int()` skips at the front of the value is made only of its white space, and the rest is left as it was |
| Text.TrimPadding | make_server.py:39 | any white space that `int()` skips, placed before and after a text that starts and ends with something else, is removed, and that text is kept whole |
| Text.DigitCountOfWellFormed | make_server.py:39 | the digits that the 4300 limit counts in a well-formed digit text are all its characters except the underscores, so leading zeros count and `_` does not |
| Text.ParseIntWellFormed | make_server.py:39 | `int()` gives a value only when, once the surrounding white space is skipped, the text is an optional sign followed by a well-formed digit text (digits with single `_` between them) that has 1 to 4300 digits. A negative value comes only from a `-` sign |
| Text.ParseShow | make_server.py:39 | `int(str(i)) == i` for every integer `i` that has at most 4300 digits |
| Text.ParseShowNat | make_server.py:39 | `int()` of the decimal digits of `n` is `n`, when there are at most 4300 of them |
| Text.ParseShowNegative | make_server.py:39 | `int()` of `-` followed by the digits of `n` is `-n`, when there are at most 4300 of them |
| Text.ParsePadded | make_server.py:39 | the digits of `n`, with any white space that `int()` skips placed before and after them, are read as `n` |
| Text.SeparatorIsNotSkipped | make_server.py:39 | a value starting with one of U+001C..U+001F is rejected, because `int()` does not skip those characters |
| Text.TooManyDigits | make_server.py:39 | a value of more than 4300 digits is rejected, even when they are leading zeros |
| Text.PrefixBefore | make_server.py:63 | `s.split(c, 1)[0]` is a prefix of `s` without `c`, and it stops at the first `c` |
| Text.Split | make_server.py:63 | `s.split(sep)` gives at least one piece, no piece contains `sep`, and joining the pieces with `sep` gives `s` back |
| Text.PrefixBeforeSeparator | make_server.py:63 | the first piece is the text before the first separator |
| Text.SplitJoin | make_server.py:63 | splitting what was joined from pieces without the separator gives the pieces back |
| Artifacts.AcceptMimes | make_server.py:63 | gives one MIME type per comma-separated item of the Accept header. Each is the item's prefix before its first `;`, with no white space removed. An absent header gives `[""]` |
| Artifacts.AcceptMimesOfList | make_server.py:63 | an Accept header listing items gives back, item by item, each item's text before its parameters |
| Artifacts.AcceptMimesOfTypes | make_server.py:63 | an Accept header listing plain MIME types gives exactly those types back |
| Artifacts.Starred | make_server.py:65 | one pattern per extension, in order: pattern i is `*` followed by extension i |
| Artifacts.DerivedPatterns | make_server.py:65 | one pattern per extension that the lookup gives for the MIME types, in order: `*` followed by that extension |
| Artifacts.OutputPatterns | make_server.py:64-66 | the `-o` patterns come first, unchanged and in order, and every later pattern starts with `*` |
| Artifacts.DerivedPatternsAppend | make_server.py:65 | the derived patterns follow the MIME types in order |
| Artifacts.DerivedPatternsOfMime | make_server.py:65 | one MIME type contributes `*ext` for each of its extensions, in lookup order |
| Artifacts.InOutputPatterns | make_server.py:64-66 | a pattern is used if and only if it is an `-o` pattern or is `*` followed by an extension of an accepted MIME type |
| Artifacts.InExtensions | make_server.py:65 | an extension is looked up if and only if the lookup gives it for one of the MIME types |
| Artifacts.CollectPaths | make_server.py:67 | there are exactly as many paths as the patterns' matches together: none is dropped |
| Artifacts.CollectPathsOrder | make_server.py:67 | the paths follow the patterns in order: the paths of `a + b` are those of `a` followed by those of `b` |
| Artifacts.CollectPathsOfPattern | make_server.py:67 | one pattern contributes exactly its matches, in the order `glob` gives them |
| Artifacts.CollectPathsKeepsRepeats | make_server.py:67 | a pattern listed twice contributes its matches twice, so repeats are not removed |
| Artifacts.InCollectPaths | make_server.py:67 | a path is collected if and only if some pattern matches it |
| Artifacts.ArchiveEntries | make_server.py:71-72 | there is one entry per path. Entry i reads `join(dpath, paths[i])` and stores it under the name `paths[i]` |
| Artifacts.ArchiveNamesArePaths | make_server.py:71-72 | the entry names, read back in order, are the collected paths, repeats included |
| Artifacts.AbsoluteMatchLeavesWorkspace | make_server.py:72 | when match i is an absolute path, its entry reads exactly that path: the workspace path is not in front of it |
| Artifacts.ZipArchive.Write | make_server.py:72 | `zipf.write` appends one entry. A repeated name is written again, not replaced |
| Artifacts.Package | make_server.py:70-72 | the loop writes exactly the entry list above |
| Text.Basename | make_server.py:36 | `basename` contains no `/` and is no longer than the path |
| Text.BasenameIsLastSegment | make_server.py:36 | the basename is the end of the path, and a `/` comes before it unless it is the whole path |
| Text.PathJoin | make_server.py:36 | `os.path.join(a, b)` is `b` when `b` is absolute. Otherwise it starts with `a` and ends with `b`, and a `/` comes right before `b` whenever `a` is not empty. That `/` is added between them exactly when `a` does not already end with one. An empty `a` gives `b` |
| Text.BasenameOfJoin | make_server.py:36 | the basename of a directory joined with a plain name is that name |
| Handler.Admit | make_server.py:36-47 | no `Content-Length` is rejected with 411. A request gets as far as the copy loop if and only if the length is present, `int()` accepts it and the basename does not denote a directory. It then carries that basename, a non-empty name without `/`, and the parsed length |
| Handler.InputStaysInWorkspace | make_server.py:36 | the input file's name has no `/`, so the file lands directly in the workspace |
| Handler.StagedInput | make_server.py:39-51 | the build gets an input file if and only if the request passes the checks and sends enough bytes. The file then holds exactly max(0, L) bytes from the front of the body |
| Handler.NonPositiveLengthIsBuilt | make_server.py:46-48 | a declared length of zero or below is not a missing length: an empty file is built, and the answer is a response other than 411 |
| Handler.ZeroLengthIsBuilt | make_server.py:46-48 | `Content-Length: 0` gives an empty input file |
| Handler.DeclaredLengthIsStaged | make_server.py:46-51 | a body declared as `str(n)` bytes long stages exactly its first n bytes. This requires n to have at most 4300 digits, since `str()` rejects longer ones too |
| Handler.Answer | make_server.py:53-77 | a non-zero exit code gives 500 "Command error" with exactly the build's error output. Exit code 0 gives 201 "Created" with exactly the archive bytes |
| Handler.ResponseEntries | make_server.py:63-72 | every entry of the answer's archive reads the workspace file that its name denotes |
| Handler.ArchiveFollowsPatterns | make_server.py:63-72 | the archive's entry names are the collected paths. These are the matches of the `-o` patterns followed by the matches of the derived patterns |
| Handler.PutOutcome | make_server.py:34-77 | no `Content-Length` gives 411 with the fixed text, and 411 happens only then. A value `int()` rejects raises, and so does a name that denotes a directory. The build runs if and only if the answer is a response other than 411. Every response is 411, 500 or 201 |
| Handler.PutHandler.Respond | make_server.py:53-77 | runs the build and answers as `Answer` says, then removes the workspace. Only a successful build creates a file there: `resp.zip`, from which the answer's body is read |
| Handler.PutHandler.DoPut | make_server.py:33-77 | the handler's outcome is `PutOutcome` of the request. These also hold. The workspace is new and is removed on every path. The input file is created if and only if the build is reached, and the only other file created is `resp.zip` after a successful build. Only the staged bytes are read, through reads that form a finished chunked copy, and nothing is read when the build is never reached |

## Left out

- Argument parsing (make_server.py:8-21) and the TCP server loop
  (make_server.py:84-86) are transport and configuration. The parsed command
  line is the immutable `Config` record.
- The temporary directory is modelled only by its files and a released flag.
  Its name is a parameter and `os.path.abspath` of it is taken as the
  identity, because neither depends on the request.
- The shell command and `make` (make_server.py:53-55) are a foreign process.
  They are the `make` field of `Env`, a function of the Makefile, the input
  file name and the input bytes. Other files the build might read or write
  are not modelled.
- `mimetypes.guess_all_extensions`, `glob.glob` and the zip file format are
  library code. They are uninterpreted fields of `Env`. Directory entries,
  the normalisation of archive names and the bytes of the archive are
  therefore not modelled.
- The status line and headers that `send_response` and `end_headers` write,
  such as `Server` and `Date`, are not modelled. A `Response` holds the
  status, the reason phrase and the body.
- Http.GetHeader: compares names ignoring ASCII case only. This is exact for
  the ASCII name `Content-Length` but not for full Unicode case folding of
  header names.
- Text.ParseInt: `int()` is modelled for ASCII digits only. Python also
  accepts other Unicode decimal digits.
- The digit limit of `int()` is fixed at its default of 4300. This is the
  value in Python 3.10.7 and later. Of the releases that can run this file
  (it passes `root_dir` to `glob`, which needs 3.10), only 3.10.0 to 3.10.6
  have no limit. The limit can be changed through `PYTHONINTMAXSTRDIGITS`,
  `-X int_max_str_digits` or `sys.set_int_max_str_digits`, and none of these
  is modelled.
- Header values are taken as the header parser of `http.server` delivers
  them. How that parser splits and unfolds header lines is not modelled.
- Upload.Receive: requires the client to send at least the declared number
  of bytes. The real loop spins forever on empty reads otherwise, and
  `Handler.PutOutcome` states that case as `Hangs`.
- Handler.Answer: the collaborators in `Env` never fail. In the code,
  `subprocess.run` (make_server.py:53) can raise `OSError`, for example when
  `/bin/sh` cannot be started. `zipf.write` (make_server.py:72) raises
  `FileNotFoundError` or `PermissionError` for a match that cannot be read,
  such as a dangling symbolic link or a file the server may not read. Writing
  or reading `resp.zip` (make_server.py:70 and 76) can fail too. None of these
  is caught, so the request ends without a response, but the model answers
  201 after an exit code of 0.
- Handler.PutOutcome: for the same reason, "the build runs if and only if the
  answer is a response other than 411" holds only when those collaborators
  do not raise.
- `open()` failures other than a name that denotes a directory are not
  modelled, for example a name longer than the system allows.
- Concurrent requests are not modelled. Each request is handled on its own
  with its own workspace.
