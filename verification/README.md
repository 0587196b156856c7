# TakiyashaGUI decryption pipeline and batch bookkeeping, in Dafny

TakiyashaGUI is a desktop front end for the `libtakiyasha` library. The
library decrypts music files from NetEase Cloud Music (`.ncm`, `.uc!`) and
QQ Music (`.qmc`, `.mflac`, `.mgg`). This project models two parts of it
and proves properties about them:

- **The per-file pipeline** (`core.py`), in `core.dfy`, module `Core`:
  - `probe_file` opens the file with `libtakiyasha` and sniffs its audio format;
  - `decrypt` creates the destination exclusively, or after removing an old
    one under `overwrite`, writes the decrypted stream and removes it again
    when the write fails;
  - `mainflow` chains probing, decryption and tag completion;
  - `TakiyashaTask.run` turns one `mainflow` call into exactly one
    completion signal.

  The state is modelled as:
  - the file system: a map from path to bytes (`FileSystem`);
  - the crypter: decrypted content, read position, `closed` flag and
    scheme (`Crypter`);
  - the output handle (`OutFile`);
  - the notifications the helper emits (`Helper.log`).

  Each foreign call is an oracle in `Env`: it may fail or raise.
  `Transcript`, `FilesAfter` and `Escaping` specify one run as functions of
  the oracles and of the files present at the start. The methods are proved
  against them, and lemmas state the properties of a run on them.

- **The batch bookkeeping of the main window** (`main.py`), in
  `window.dfy`, module `Window`:
  - the opened-file list, which stays free of duplicates;
  - the extension filter of `open_folder`;
  - submission in `start`: destination directory, task options, pool size,
    the set of folders to open;
  - the completion handler `task_finished`: counters, finalisation,
    removal from the list.

  Completions reach the window one at a time, as Qt delivers signals on the
  GUI thread. `MainWindow.DeliverAll` runs a whole batch's completions in
  any order.

- **Path helpers** (`paths.dfy`, module `Paths`): `pathlib`'s `name`,
  `stem`, `parent` and `/`, and `os.path.splitext`, on strings.

Two behaviours of the code as written are modelled, not repaired:

- In `task_finished`, the tests `e is CompleteException` and
  `e is Exception` compare the delivered exception instance with a class
  object, so they never hold. `success_cnt` therefore counts only
  completions without an exception, and every completion outside test-only
  mode is reported as a success (`Window.ClassifiedAsSucceeded`).
- When `openfile` raises, `probe_file` reports the error and goes on to use
  the unbound `crypter`. The resulting exception leaves `mainflow` (the
  exception `CrypterUnbound`), and the task's completion carries it.

## Model

| member | source | states |
|---|---|---|
| Paths.NameIsLastComponent | core.py:114 | `Path.name` is the longest trailing part of the path without a separator: it is the whole path or a separator precedes it |
| Paths.StemIsPrefix | core.py:114 | `stem` is the whole name, or the part before a last dot that is neither first nor last, with no dot after it |
| Paths.StemAtLastDot | core.py:114 | conversely, a last dot that is neither first nor last ends the stem |
| Paths.StemOfDotted | core.py:114 | the stem of `a.b`, for a non-empty `a` and a non-empty dot-free `b`, is `a` |
| Paths.SplitextParts | main.py:110 | `splitext` splits the path into root + extension; the extension is empty, or a dot followed by dot- and separator-free text |
| Paths.SplitextAt | main.py:110 | the last dot of the final component starts the extension when a character other than a dot precedes it in that component |
| Paths.SplitextNoExt | main.py:110 | conversely, the extension is empty exactly when only dots lie between the last separator and the last dot: a final component without a dot, or with only leading dots before its last one |
| Paths.SplitextHidden | main.py:110 | `.ncm` and `music/.ncm` have no extension; `music/a.ncm` has `.ncm` |
| Paths.JoinParts | core.py:114 | joining one component onto a directory is undone by `parent` and `name` |
| Core.OutputExt | core.py:42-44 | a falsy sniff result becomes "unknown"; any other is kept; the result is never empty |
| Core.DestPathParts | core.py:114 | the destination lies directly in `destdirpath` and is named `stem + '.' + ext` |
| Core.FileSystem.CreateExclusive | core.py:61-70 | mode `x+b`: an existing path gives "exists", an OS failure gives an error, otherwise a fresh empty file at position 0 and nothing else changes |
| Core.Crypter.Rewind | core.py:31-32 | `seek(0, 0)` on a seekable crypter (also at lines 47, 74 and 113): the position is 0 and nothing else changes |
| Core.Crypter.Skip | core.py:35 | sniffing reads up to `n` bytes: the position advances by `n`, but not past the end of the stream |
| Core.Crypter.Close | core.py:88 | the crypter is closed and its close count grows by exactly one |
| Core.OutFile.Rewind | core.py:91 | `destfile.seek(0, 0)`: the handle's position is 0 |
| Core.OutFile.Close | core.py:84 | the handle is closed (also at line 147) |
| Core.Upper | core.py:108 | `.upper()`: no lower-case ASCII letter is left, each one becomes its upper-case partner, and every other character is kept |
| Core.UpperIdempotent | core.py:108 | upper-casing twice is upper-casing once |
| Core.FileSystem.Remove | core.py:59 | `os.remove` removes exactly that path |
| Core.Crypter.Read | core.py:78 | `read()` yields everything from the current position and leaves the position at the end; a failing read changes nothing |
| Core.OutFile.Write | core.py:78 | writing at the position overwrites those bytes and advances the position; a failing write changes nothing |
| Core.Helper.ProbeFile | core.py:19-49 | `openfile` raising: an error is emitted and the unbound crypter escapes. A falsy crypter: None, nothing emitted. Sniff raising: an error and None. A falsy format: a warning and "unknown". Seekable crypters are rewound. The crypter is never closed |
| Core.Helper.WriteOut | core.py:72-92 | the crypter is closed exactly once. On a read or write failure the destination is closed and removed and an error emitted; otherwise it holds the whole decrypted stream (from the current position if not seekable) and the handle is back at 0 |
| Core.Helper.Decrypt | core.py:51-92 | without `overwrite` an existing destination gives an error and None, files and crypter untouched; with it the old file is removed first. A create failure emits an error. Once created, the crypter is closed exactly once and a failed write leaves no destination |
| Core.Helper.CompleteTags | core.py:132-145 | no tagging without `with_tag`; a warning for "unknown"; NCM calls the cloud-music completer with the crypter's tag and cover data and `search_tag`, QMCv1/QMCv2 call the QQ-music one with `search_tag`, others call none and get an "unsupported" notice; it raises exactly when a called completer raises |
| Core.Helper.TagAndClose | core.py:126-149 | reports the decryption, emits the tag notes, makes the completer calls of `CompleteTags`, and closes the output exactly when no completer raised |
| Core.Helper.DecryptAndTag | core.py:111-149 | after a probe without `probe_only`: the files, the notifications, the completer calls, the escaping exception and the crypter's close count all match the run's specification |
| Core.Helper.AfterProbe | core.py:104-117 | with `probe_only`, one report naming the scheme and the upper-cased extension and nothing else; otherwise as `DecryptAndTag` |
| Core.Helper.Mainflow | core.py:94-149 | notifications are exactly `Transcript`; completer calls are exactly `TagCalls`; files afterwards are exactly `FilesAfter`; it raises exactly `Escaping`; the crypter is closed once iff the destination was created; the output handle exists iff the write succeeded and is closed iff the run returned |
| Core.Task.Run | core.py:164-170 | exactly one completion is emitted: None when `mainflow` returned, otherwise the escaping exception; the notifications, completer calls and files are those of the run |
| Core.TagCallsDispatch | core.py:132-145 | a run calls at most one completer, and one exactly when it wrote the output, `with_tag` is set, the extension is known and the scheme is NCM, QMCv1 or QMCv2; the call is on the destination with `search_tag`, it is the cloud-music one iff the scheme is NCM, and only that one gets the tag and cover data; an escaping completer exception implies the call |
| Core.ErrorIffNoOutput | core.py:94-149 | a run reports an error if and only if it did not probe the file, or it meant to decrypt and wrote no output |
| Core.OnlyDestinationChanges | core.py:58-92 | no file other than the destination is created, removed or changed |
| Core.ExistingDestinationKept | core.py:58-65 | without `overwrite`, an existing destination is left byte for byte, the run ends with "already exists", and nothing escapes |
| Core.OverwrittenDestination | core.py:58-92 | with `overwrite`, the destination afterwards exists iff the write succeeded, and then holds exactly the payload |
| Core.SeekableWritesWholeStream | core.py:72-78 | for a seekable crypter the destination holds the whole decrypted stream |
| Core.EscapingCases | core.py:19-149 | only two exceptions escape: the unbound crypter, exactly when `openfile` raised and with no file touched; and a raising tag completer, after the output was written |
| Core.ProbeOnlyChangesNothing | core.py:106-110 | with `probe_only`, no file changes, nothing escapes, and the run ends with the single report |
| Window.AddNewKeepsPrefix | main.py:89-94 | appending keeps the existing entries in place |
| Window.AddNewMembers | main.py:89-94 | afterwards the list holds exactly the old entries and the added paths |
| Window.AddNewNoDup | main.py:89-94 | a duplicate-free list stays duplicate-free |
| Window.SupportedOnlyHidden | main.py:103-111 | a walked file named `.ncm` is skipped while `a.ncm` beside it is kept |
| Window.SupportedOnlyMembers | main.py:103-111 | a walked path is kept iff its `splitext` extension is one of .mflac, .mgg, .qmc, .ncm, .uc! |
| Window.WithoutMembers | main.py:73-77 | removal keeps exactly the entries not selected |
| Window.RemoveFirstIsWithout | main.py:205 | in a duplicate-free list, `list.remove` removes every occurrence of the path |
| Window.Submissions | main.py:162-181 | one task per opened file, in order: the destination is the file's parent with `use_source_path`, otherwise the output path; the flags come from the check boxes; the folder set holds the destination directories when `open_dist_folder` is checked, and is empty otherwise |
| Window.OpenFolders | main.py:201-202 | each collected folder is opened exactly once |
| Window.ClassifiedAsSucceeded | main.py:187-196 | for the values a task emits, a completion counts as a success iff it carries no exception, and its message is always "succeeded" |
| Window.MainWindow.constructor | main.py:26-45 | an empty file list, the panels enabled, a pool of 20 threads |
| Window.MainWindow.OpenFiles | main.py:80-94 | appends in order only paths not yet listed; keeps the list duplicate-free |
| Window.MainWindow.OpenFolder | main.py:96-111 | when a directory was chosen, appends in walk order the supported paths not yet listed; otherwise the list is unchanged |
| Window.MainWindow.RemoveItems | main.py:73-77 | removes exactly the valid selected entries; the rest keep their order |
| Window.MainWindow.Start | main.py:138-211 | an empty list gives only the warning, and the panels, progress bar, counters, pool and submissions stay as they were. Otherwise: panels disabled; progress maximum = number of files; counters at 0; pool size 1 in serial mode, else the chosen count; one task per file submitted; every file pending |
| Window.MainWindow.Reset | main.py:147-160 | the setup before the submission loop |
| Window.MainWindow.SubmitAll | main.py:162-211 | the submitted tasks and the folder set are those of `Submissions`; every listed file becomes pending |
| Window.MainWindow.Tally | main.py:184-196 | `cnt` grows by 1; `success_cnt` grows by 1 iff there is no exception; a "succeeded" message unless only probing |
| Window.MainWindow.Finalise | main.py:198-202 | panels enabled, one summary with the counts, each collected folder opened once |
| Window.MainWindow.TaskFinished | main.py:183-206 | keeps `0 <= success_cnt <= cnt` and `cnt + pending = maximum`. It finalises exactly when the last pending file completes. The file leaves the list, and `remove` cannot fail while every pending file is listed |
| Window.MainWindow.DeliverNext | main.py:183-206 | one more completion keeps the batch state (`Delivered`): counters, messages, opened folders and file list reflect the completions delivered so far |
| Window.MainWindow.DeliverAll | main.py:183-211 | when each submitted task completes once, in any order: the batch is finalised exactly once, and its summary is the log's last entry and its only summary; the log holds one "succeeded" per completion (none when only probing) before it; `cnt` and the progress bar reach the maximum; `success_cnt` grows by the number of completions without an exception; each collected folder is opened once; the completed files leave the list |

## Left out

- The Qt widgets, dialogs, menu and HTML log formatting are not modelled. The message texts become constructors of `Msg` and `Message`. The helper's notifications and the window's own messages are kept in separate logs.
- `QThreadPool` and real concurrency are not modelled. Submitted tasks are recorded in order. Their completions are processed one at a time, in any order.
- `libtakiyasha` (`openfile`, `sniff_audio_file`, the ciphers) is foreign code. It becomes the oracles in `Env`: the outcome of opening, the crypter, how many bytes sniffing reads, the sniffed format, and whether reading fails.
- `probe_content` and `try_fallback` only reach `openfile`, so they are absorbed into its oracle. `search_tag` only reaches the tag completers and is recorded in their calls.
- `get_encryption_name` formats `cipher_name()` from the foreign library. The report and "planned" notes carry the crypter's scheme instead.
- Tag completion (`complete_from_cloudmusic`, `complete_from_qqmusic`) is network-backed foreign code. Its calls and their arguments are recorded in `Helper.tagCalls`; what a call does is modelled only as finding tags, finding none, or raising. The tags and cover it writes into the destination are not modelled: the destination's bytes are the decrypted stream.
- The whole-file operations are modelled as succeeding: `os.remove`, `destfile.seek` and `close`. `os.path.exists` is membership in the file map.
- `Paths`: drives, UNC prefixes and trailing separators are not modelled. `Join` always inserts '/'.
- `Core.DestPathParts`: it requires a non-empty `destdir`, because `Path("")` denotes "." in `pathlib` and the model keeps the text as given.
- `Core.Upper` upper-cases ASCII letters only.
- `os.walk` is an input: the sequence of joined paths it yields, in order. `os.startfile` calls are recorded in `MainWindow.startedFolders`.
- The summary's elapsed time is not modelled, since it comes from `time.time`.
- Window.MainWindow.Start: requires the panels to be enabled. The start button is disabled while a batch runs, so a second batch cannot start in the middle of one.
- Window.MainWindow.SetOptions: requires the panels to be enabled, since the option panels are disabled while a batch runs. This is why `test_only`, read at each completion, is the same value as at submission.
- Window.MainWindow.TaskFinished: requires the completing file to be pending, i.e. to belong to a task of the running batch.
- Window.Submissions: the destination folders are collected as strings, not as `pathlib` paths. `pathlib` treats `/` and `\` alike and ignores case on Windows, so two spellings of one folder (`C:/Music/sub` and `C:\Music\sub`) are two entries here and one in the program.
- Window.OpenFolders: opens each collected string once, so a folder spelt two ways is opened twice, where the program opens it once.
