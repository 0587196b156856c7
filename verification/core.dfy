/**
  The per-file pipeline of the GUI (core.py): probe a source file for its
  encryption scheme and output format, decrypt it into the destination
  directory, and optionally complete the output's tags; plus the task that
  runs one pipeline and reports its completion.

  The decryption library and the tag completers are foreign code: what they
  do for a particular file is an input (`Env`), and each of them may fail.
  Python's exceptions that escape a call are modelled as a returned
  `Outcome.Raised`; notifications (the `info`, `warning` and `error`
  signals) are appended to `Helper.log`.
 */
module Core {
  import opened Wrappers
  import opened Paths

  newtype byte = x: int | 0 <= x < 256
  type Bytes = seq<byte>

  /** The crypter classes the tag step distinguishes (core.py:136, 141). */
  datatype Scheme = NCM | QMCv1 | QMCv2 | OtherScheme

  /** One message per `emit` site of core.py; the file paths it mentions are kept. */
  datatype Msg =
    | ProbeTypeFailed(src: Path)                       // probing the encryption raised
    | ProbeFormatFailed(src: Path)                     // sniffing the output format raised
    | FormatUnknown(src: Path)                         // sniffing found no format
    | DestExists(dest: Path)                           // exclusive create found a file
    | CreateFailed(dest: Path)                         // exclusive create failed otherwise
    | DecryptFailed(src: Path, dest: Path)             // reading or writing raised
    | ProbeReport(src: Path, scheme: Scheme, format: string)
    | Planned(src: Path, scheme: Scheme, dest: Path)
    | Unsupported(src: Path)
    | Decrypted(src: Path, dest: Path)
    | TagSkipped(src: Path)
    | TaggedFromCloudMusic(dest: Path)
    | TaggedFromQQMusic(dest: Path)
    | TagUnsupported(dest: Path)

  datatype Note = Info(msg: Msg) | Warning(msg: Msg) | Error(msg: Msg)

  /** Exceptions that can leave `mainflow`. */
  datatype Exc =
    | CrypterUnbound     // `crypter` is read at core.py:31 after `openfile` raised
    | TagLookupFailed    // a tag completer raised

  /** How a Python call ended: it returned, or an exception escaped. */
  datatype Outcome = Returned | Raised(exc: Exc)

  /** The keyword arguments of one `mainflow` call, fixed when the task is built. */
  datatype TaskArgs = TaskArgs(src: Path, destdir: Path, probeOnly: bool, withTag: bool,
                               searchTag: bool, tryFallback: bool, overwrite: bool)

  /** What the `finished` signal carries: the file and None or the caught exception. */
  datatype Completion = Completion(file: Path, error: Option<Exc>)

  /** What `libtakiyasha.openfile` does for the file: raise, return a falsy value, or return the crypter. */
  datatype OpenOutcome = OpenRaises | OpenFalsy | Opened

  /**
    What `libtakiyasha.sniff_audio_file` does: it reads `consumed` bytes of
    the decrypted stream and then raises or answers an extension, where ""
    stands for any falsy answer.
   */
  datatype SniffOutcome = SniffRaises(consumed: nat) | Sniffed(ext: string, consumed: nat)

  /** What a tag completer does: returns a truth value or raises. */
  datatype TagOutcome = TagDone(found: bool) | TagRaises

  /**
    A call of a tag completer, with the arguments it receives besides the
    output handle: `complete_from_cloudmusic` gets the crypter's embedded
    tag and cover data, `complete_from_qqmusic` does not.
   */
  datatype TagCall =
    | CloudMusic(dest: Path, tagdata: Bytes, coverdata: Bytes, searchTag: bool)
    | QQMusic(dest: Path, searchTag: bool)

  /**
    Everything the foreign code decides for one run of the pipeline;
    `crypter` is the object `openfile` returns when it returns one.
   */
  datatype Env = Env(open: OpenOutcome, crypter: Crypter, sniff: SniffOutcome,
                     createFails: bool,    // `open(dest, 'x+b')` raises something other than FileExistsError
                     readFails: bool,      // `crypter.read()` raises
                     writeFails: bool,     // `destfile.write(...)` raises
                     tag: TagOutcome)

  datatype ProbeResult = ProbeRaised(exc: Exc) | NotProbed | Probed(crypter: Crypter, ext: string)

  datatype CreateStatus = CreateOk | FileExists | OsError

  function Min(a: int, b: int): int
  {
    if a <= b then a else b
  }

  /** An opened crypter: a read-only, possibly seekable stream of decrypted bytes. */
  class Crypter {
    const scheme: Scheme
    const seekable: bool
    const plain: Bytes        // the whole decrypted stream
    const tagdata: Bytes      // embedded tag block (NCM only)
    const coverdata: Bytes    // embedded cover image (NCM only)
    var pos: nat
    var closed: bool
    ghost var closeCount: nat

    predicate Valid()
      reads this
    {
      pos <= |plain|
    }

    constructor (scheme: Scheme, seekable: bool, plain: Bytes, tagdata: Bytes, coverdata: Bytes)
      ensures Valid() && pos == 0 && !closed && closeCount == 0
      ensures this.scheme == scheme && this.seekable == seekable && this.plain == plain
      ensures this.tagdata == tagdata && this.coverdata == coverdata
    {
      this.scheme, this.seekable, this.plain := scheme, seekable, plain;
      this.tagdata, this.coverdata := tagdata, coverdata;
      pos, closed, closeCount := 0, false, 0;
    }

    /** `seek(0, 0)` */
    method Rewind()
      requires seekable
      modifies this`pos
      ensures Valid() && pos == 0
    {
      pos := 0;
    }

    /** Reads and discards up to `n` bytes. */
    method Skip(n: nat)
      requires Valid()
      modifies this`pos
      ensures Valid() && pos == Min(old(pos) + n, |plain|)
    {
      pos := Min(pos + n, |plain|);
    }

    /** `read()`: everything from the position on, or None when it raises. */
    method Read(fails: bool) returns (data: Option<Bytes>)
      requires Valid()
      modifies this`pos
      ensures Valid()
      ensures fails ==> data == None && pos == old(pos)
      ensures !fails ==> data == Some(old(plain[pos..])) && pos == |plain|
    {
      if fails {
        return None;
      }
      data := Some(plain[pos..]);
      pos := |plain|;
    }

    method Close()
      modifies this`closed, this`closeCount
      ensures closed && closeCount == old(closeCount) + 1
    {
      closed := true;
      closeCount := closeCount + 1;
    }
  }

  /** The files on disk: path to contents. */
  class FileSystem {
    var files: map<Path, Bytes>

    constructor (files: map<Path, Bytes>)
      ensures this.files == files
    {
      this.files := files;
    }

    /** `os.remove` */
    method Remove(p: Path)
      requires p in files
      modifies this
      ensures files == old(files) - {p}
    {
      files := files - {p};
    }

    /** `open(p, 'x+b')`: creates an empty file unless one exists or the OS refuses. */
    method CreateExclusive(p: Path, fails: bool) returns (status: CreateStatus, h: OutFile?)
      modifies this
      ensures p in old(files) ==> status == FileExists && h == null && files == old(files)
      ensures p !in old(files) && fails ==> status == OsError && h == null && files == old(files)
      ensures p !in old(files) && !fails ==>
                status == CreateOk && h != null && fresh(h) && h.fs == this && h.path == p &&
                h.pos == 0 && !h.closed && files == old(files)[p := []]
    {
      if p in files {
        return FileExists, null;
      }
      if fails {
        return OsError, null;
      }
      files := files[p := []];
      h := new OutFile(this, p);
      status := CreateOk;
    }
  }

  /** `data` written over `s` from offset `at` on. */
  function Overwritten(s: Bytes, at: nat, data: Bytes): (r: Bytes)
    requires at <= |s|
    ensures |r| == if at + |data| < |s| then |s| else at + |data|
    ensures r[..at] == s[..at] && r[at..at + |data|] == data
    ensures r[at + |data|..] == if at + |data| < |s| then s[at + |data|..] else []
  {
    s[..at] + data + (if at + |data| < |s| then s[at + |data|..] else [])
  }

  /** A binary file handle opened for reading and writing. */
  class OutFile {
    const fs: FileSystem
    const path: Path
    var pos: nat
    var closed: bool

    constructor (fs: FileSystem, path: Path)
      ensures this.fs == fs && this.path == path && pos == 0 && !closed
    {
      this.fs, this.path := fs, path;
      pos, closed := 0, false;
    }

    /** `write(data)`; `ok` is false when it raises, and then nothing is written. */
    method Write(data: Bytes, fails: bool) returns (ok: bool)
      requires path in fs.files && pos <= |fs.files[path]|
      modifies this`pos, fs
      ensures ok == !fails
      ensures fails ==> fs.files == old(fs.files) && pos == old(pos)
      ensures !fails ==> pos == old(pos) + |data| &&
                         fs.files == old(fs.files)[path := Overwritten(old(fs.files[path]), old(pos), data)]
    {
      if fails {
        return false;
      }
      fs.files := fs.files[path := Overwritten(fs.files[path], pos, data)];
      pos := pos + |data|;
      ok := true;
    }

    /** `seek(0, 0)` */
    method Rewind()
      modifies this`pos
      ensures pos == 0
    {
      pos := 0;
    }

    method Close()
      modifies this`closed
      ensures closed
    {
      closed := true;
    }
  }

  const Unknown: string := "unknown"

  /** The extension used when sniffing gives a falsy answer is "unknown". */
  function OutputExt(sniffed: string): (ext: string)
    ensures ext != ""
    ensures sniffed != "" ==> ext == sniffed
    ensures sniffed == "" ==> ext == Unknown
  {
    if sniffed == "" then Unknown else sniffed
  }

  /** `destdirpath / (srcfilepath.stem + '.' + ext)` */
  function DestPath(destdir: Path, src: Path, ext: string): Path
  {
    Join(destdir, Stem(Name(src)) + "." + ext)
  }

  /** The destination sits directly in `destdir` and is named after the source's stem. */
  lemma DestPathParts(destdir: Path, src: Path, ext: string)
    requires destdir != "" && NoSep(ext)
    ensures Parent(DestPath(destdir, src, ext)) == destdir
    ensures Name(DestPath(destdir, src, ext)) == Stem(Name(src)) + "." + ext
  {
    var n := Name(src);
    var stem := Stem(n);
    var leaf := stem + "." + ext;
    NameIsLastComponent(src);
    StemIsPrefix(n);
    forall i | 0 <= i < |leaf| ensures leaf[i] !in Seps {
      if i < |stem| {
        assert leaf[i] == n[i];
      } else if i > |stem| {
        assert leaf[i] == ext[i - |stem| - 1];
      }
    }
    JoinParts(destdir, leaf);
  }

  function UpperChar(c: char): char
  {
    if 'a' <= c <= 'z' then (c as int - 'a' as int + 'A' as int) as char else c
  }

  /**
    `str.upper`, for ASCII letters: every lower-case letter becomes its
    upper-case partner, every other character is kept.
   */
  function Upper(s: string): (u: string)
    ensures |u| == |s|
    ensures forall i :: 0 <= i < |s| ==> !('a' <= u[i] <= 'z')
    ensures forall i :: 0 <= i < |s| && 'a' <= s[i] <= 'z' ==> u[i] as int == s[i] as int - 32
    ensures forall i :: 0 <= i < |s| && !('a' <= s[i] <= 'z') ==> u[i] == s[i]
  {
    seq(|s|, i requires 0 <= i < |s| => UpperChar(s[i]))
  }

  /** Upper-casing twice is upper-casing once. */
  lemma UpperIdempotent(s: string)
    ensures Upper(Upper(s)) == Upper(s)
  {
  }

  // ---------------------------------------------------------------------
  // Specification of one `mainflow` run in terms of what the foreign code
  // does (`env`) and the files present when it starts.

  /** Probing yields a crypter and an extension. */
  ghost predicate Probes(env: Env)
  {
    env.open.Opened? && env.sniff.Sniffed?
  }

  ghost function Ext(env: Env): string
    requires env.sniff.Sniffed?
  {
    OutputExt(env.sniff.ext)
  }

  ghost function Dest(args: TaskArgs, env: Env): Path
    requires env.sniff.Sniffed?
  {
    DestPath(args.destdir, args.src, Ext(env))
  }

  /** The run goes on to `decrypt`. */
  ghost predicate Decrypts(args: TaskArgs, env: Env)
  {
    Probes(env) && !args.probeOnly
  }

  /** `decrypt` creates the destination. */
  ghost predicate Creates(args: TaskArgs, env: Env, files: map<Path, Bytes>)
  {
    Decrypts(args, env) && (args.overwrite || Dest(args, env) !in files) && !env.createFails
  }

  /** `decrypt` writes the destination and hands it back. */
  ghost predicate Writes(args: TaskArgs, env: Env, files: map<Path, Bytes>)
  {
    Creates(args, env, files) && !env.readFails && !env.writeFails
  }

  /** A tag completer is called. */
  ghost predicate Tags(args: TaskArgs, env: Env, files: map<Path, Bytes>)
  {
    Writes(args, env, files) && args.withTag && Ext(env) != Unknown &&
    env.crypter.scheme != OtherScheme
  }

  /** The exception that leaves `mainflow`, if any. */
  ghost function Escaping(args: TaskArgs, env: Env, files: map<Path, Bytes>): Option<Exc>
  {
    if env.open.OpenRaises? then Some(CrypterUnbound)
    else if Tags(args, env, files) && env.tag.TagRaises? then Some(TagLookupFailed)
    else None
  }

  /**
    The bytes `decrypt` reads: the whole stream when the crypter is
    seekable (it is rewound), otherwise what sniffing left unread, from the
    position `pos0` the crypter had when `openfile` returned it.
   */
  ghost function Payload(env: Env, pos0: nat): Bytes
    requires Probes(env) && pos0 <= |env.crypter.plain|
  {
    var c := env.crypter;
    if c.seekable then c.plain else c.plain[Min(pos0 + env.sniff.consumed, |c.plain|)..]
  }

  /** The files after the run. */
  ghost function FilesAfter(args: TaskArgs, env: Env, files: map<Path, Bytes>, pos0: nat): map<Path, Bytes>
    requires Probes(env) ==> pos0 <= |env.crypter.plain|
  {
    if !Decrypts(args, env) then files
    else if Writes(args, env, files) then files[Dest(args, env) := Payload(env, pos0)]
    else if Creates(args, env, files) || args.overwrite then files - {Dest(args, env)}
    else files
  }

  ghost function SniffNotes(args: TaskArgs, env: Env): seq<Note>
    requires env.sniff.Sniffed?
  {
    if env.sniff.ext == "" then [Warning(FormatUnknown(args.src))] else []
  }

  /** The completer calls of the tag step, for a run that wrote `dest`. */
  function TagCallsFor(withTag: bool, searchTag: bool, dest: Path, ext: string, scheme: Scheme,
                       tagdata: Bytes, coverdata: Bytes): seq<TagCall>
  {
    if !withTag || ext == Unknown then []
    else match scheme
      case NCM => [CloudMusic(dest, tagdata, coverdata, searchTag)]
      case QMCv1 => [QQMusic(dest, searchTag)]
      case QMCv2 => [QQMusic(dest, searchTag)]
      case OtherScheme => []
  }

  /** The completer calls one run makes. */
  ghost function TagCalls(args: TaskArgs, env: Env, files: map<Path, Bytes>): seq<TagCall>
  {
    if Writes(args, env, files)
    then TagCallsFor(args.withTag, args.searchTag, Dest(args, env), Ext(env), env.crypter.scheme,
                     env.crypter.tagdata, env.crypter.coverdata)
    else []
  }

  /** The notifications of the tag step, for a run that wrote `dest`. */
  ghost function TagNotes(withTag: bool, src: Path, dest: Path, ext: string, scheme: Scheme, tag: TagOutcome): seq<Note>
  {
    if !withTag then []
    else if ext == Unknown then [Warning(TagSkipped(src))]
    else match scheme
      case NCM => if tag == TagDone(true) then [Info(TaggedFromCloudMusic(dest))] else []
      case QMCv1 => if tag == TagDone(true) then [Info(TaggedFromQQMusic(dest))] else []
      case QMCv2 => if tag == TagDone(true) then [Info(TaggedFromQQMusic(dest))] else []
      case OtherScheme => [Info(TagUnsupported(dest))]
  }

  ghost function DecryptNotes(args: TaskArgs, env: Env, files: map<Path, Bytes>): seq<Note>
    requires Probes(env)
  {
    var src, dest := args.src, Dest(args, env);
    if !args.overwrite && dest in files then [Error(DestExists(dest))]
    else if env.createFails then [Error(CreateFailed(dest))]
    else if env.readFails || env.writeFails then [Error(DecryptFailed(src, dest))]
    else [Info(Decrypted(src, dest))] +
         TagNotes(args.withTag, src, dest, Ext(env), env.crypter.scheme, env.tag)
  }

  /** The notifications after a successful probe's own. */
  ghost function ProbedNotes(args: TaskArgs, env: Env, files: map<Path, Bytes>): seq<Note>
    requires Probes(env)
  {
    if args.probeOnly then [Info(ProbeReport(args.src, env.crypter.scheme, Upper(Ext(env))))]
    else [Info(Planned(args.src, env.crypter.scheme, Dest(args, env)))] + DecryptNotes(args, env, files)
  }

  /** The notifications one run emits, in order. */
  ghost function Transcript(args: TaskArgs, env: Env, files: map<Path, Bytes>): seq<Note>
  {
    var src := args.src;
    match env.open
    case OpenRaises => [Error(ProbeTypeFailed(src))]
    case OpenFalsy => [Error(Unsupported(src))]
    case Opened =>
      match env.sniff
      case SniffRaises(_) => [Error(ProbeFormatFailed(src)), Error(Unsupported(src))]
      case Sniffed(_, _) => SniffNotes(args, env) + ProbedNotes(args, env, files)
  }

  /** Once the output is written, the decryption is reported and the tag notes follow. */
  lemma DecryptNotesWritten(before: seq<Note>, args: TaskArgs, env: Env, files: map<Path, Bytes>)
    requires Writes(args, env, files)
    ensures before + DecryptNotes(args, env, files) ==
            before + [Info(Decrypted(args.src, Dest(args, env)))] +
            TagNotes(args.withTag, args.src, Dest(args, env), Ext(env), env.crypter.scheme, env.tag)
  {
  }

  /** After a successful probe, the transcript is the probe's notes and then the rest. */
  lemma TranscriptProbed(before: seq<Note>, args: TaskArgs, env: Env, files: map<Path, Bytes>)
    requires Probes(env)
    ensures before + Transcript(args, env, files) == before + SniffNotes(args, env) + ProbedNotes(args, env, files)
  {
  }

  // Properties of a run, stated on its specification.

  /** A notification list holds an error. */
  ghost predicate HasError(notes: seq<Note>)
  {
    exists k :: 0 <= k < |notes| && notes[k].Error?
  }

  lemma {:induction false} HasErrorConcat(a: seq<Note>, b: seq<Note>)
    ensures HasError(a + b) <==> HasError(a) || HasError(b)
  {
    if HasError(a + b) {
      var k :| 0 <= k < |a + b| && (a + b)[k].Error?;
      if k < |a| {
        assert a[k].Error?;
      } else {
        assert b[k - |a|].Error?;
      }
    }
    if HasError(a) {
      var k :| 0 <= k < |a| && a[k].Error?;
      assert (a + b)[k].Error?;
    }
    if HasError(b) {
      var k :| 0 <= k < |b| && b[k].Error?;
      assert (a + b)[|a| + k].Error?;
    }
  }

  /**
    A run reports an error exactly when it produces nothing: it did not
    probe the file, or it meant to decrypt and no output was written.
    Warnings and tag notices are never errors.
   */
  lemma ErrorIffNoOutput(args: TaskArgs, env: Env, files: map<Path, Bytes>)
    ensures HasError(Transcript(args, env, files)) <==>
            !Probes(env) || (!args.probeOnly && !Writes(args, env, files))
  {
    if Probes(env) {
      var sniff := SniffNotes(args, env);
      var rest := ProbedNotes(args, env, files);
      HasErrorConcat(sniff, rest);
      assert !HasError(sniff);
      if !args.probeOnly {
        var planned := [Info(Planned(args.src, env.crypter.scheme, Dest(args, env)))];
        var dec := DecryptNotes(args, env, files);
        HasErrorConcat(planned, dec);
        assert !HasError(planned);
        if Writes(args, env, files) {
          var dest := Dest(args, env);
          var tags := TagNotes(args.withTag, args.src, dest, Ext(env), env.crypter.scheme, env.tag);
          HasErrorConcat([Info(Decrypted(args.src, dest))], tags);
          assert !HasError([Info(Decrypted(args.src, dest))]);
          assert !HasError(tags);
        } else {
          assert dec[0].Error?;
        }
      } else {
        assert !HasError(rest);
      }
    } else if env.open.Opened? {
      assert Transcript(args, env, files)[0].Error?;
    } else {
      assert Transcript(args, env, files)[0].Error?;
    }
  }

  /** Files other than the destination are never touched, and nothing changes before `decrypt`. */
  lemma OnlyDestinationChanges(args: TaskArgs, env: Env, files: map<Path, Bytes>, pos0: nat, p: Path)
    requires Probes(env) ==> pos0 <= |env.crypter.plain|
    requires Decrypts(args, env) ==> p != Dest(args, env)
    ensures p in FilesAfter(args, env, files, pos0) <==> p in files
    ensures p in files ==> FilesAfter(args, env, files, pos0)[p] == files[p]
  {
  }

  /**
    Without `overwrite`, an existing destination is left as it was, the run
    reports that it exists, and nothing escapes.
   */
  lemma ExistingDestinationKept(args: TaskArgs, env: Env, files: map<Path, Bytes>, pos0: nat)
    requires Decrypts(args, env) && pos0 <= |env.crypter.plain|
    requires !args.overwrite && Dest(args, env) in files
    ensures FilesAfter(args, env, files, pos0) == files
    ensures Escaping(args, env, files) == None
    ensures Transcript(args, env, files)[|Transcript(args, env, files)| - 1] == Error(DestExists(Dest(args, env)))
  {
    TranscriptProbed([], args, env, files);
  }

  /**
    With `overwrite`, whatever was at the destination is gone: afterwards it
    holds exactly the payload when the write succeeded, and is absent
    otherwise.
   */
  lemma OverwrittenDestination(args: TaskArgs, env: Env, files: map<Path, Bytes>, pos0: nat)
    requires Decrypts(args, env) && pos0 <= |env.crypter.plain| && args.overwrite
    ensures var after := FilesAfter(args, env, files, pos0);
            var dest := Dest(args, env);
            (dest in after <==> Writes(args, env, files)) &&
            (dest in after ==> after[dest] == Payload(env, pos0))
  {
  }

  /** A seekable crypter is read from the start: the output is the whole decrypted stream. */
  lemma SeekableWritesWholeStream(args: TaskArgs, env: Env, files: map<Path, Bytes>, pos0: nat)
    requires Writes(args, env, files) && env.crypter.seekable && pos0 <= |env.crypter.plain|
    ensures FilesAfter(args, env, files, pos0)[Dest(args, env)] == env.crypter.plain
  {
  }

  /**
    Only two exceptions leave a run: the unbound crypter after `openfile`
    raised, which touches no file, and a raising tag completer, which comes
    after the output was written.
   */
  lemma EscapingCases(args: TaskArgs, env: Env, files: map<Path, Bytes>, pos0: nat)
    requires Probes(env) ==> pos0 <= |env.crypter.plain|
    ensures Escaping(args, env, files) == Some(CrypterUnbound) <==> env.open.OpenRaises?
    ensures Escaping(args, env, files) == Some(CrypterUnbound) ==> FilesAfter(args, env, files, pos0) == files
    ensures Escaping(args, env, files) == Some(TagLookupFailed) ==>
              Writes(args, env, files) && Dest(args, env) in FilesAfter(args, env, files, pos0)
  {
  }

  /** With `probe_only`, no file changes, nothing escapes unless `openfile` raised, and one report ends the run. */
  lemma ProbeOnlyChangesNothing(args: TaskArgs, env: Env, files: map<Path, Bytes>, pos0: nat)
    requires args.probeOnly && Probes(env) && pos0 <= |env.crypter.plain|
    ensures FilesAfter(args, env, files, pos0) == files
    ensures Escaping(args, env, files) == None
    ensures var t := Transcript(args, env, files);
            t[|t| - 1] == Info(ProbeReport(args.src, env.crypter.scheme, Upper(Ext(env))))
  {
  }

  /**
    At most one completer is called, exactly when the run reaches the tag
    step with a known extension and a supported scheme, and then the one
    that matches the scheme, on the destination; only the cloud-music
    completer receives the embedded tag and cover data. A completer that
    raised was therefore called.
   */
  lemma TagCallsDispatch(args: TaskArgs, env: Env, files: map<Path, Bytes>)
    ensures |TagCalls(args, env, files)| <= 1
    ensures TagCalls(args, env, files) != [] <==> Tags(args, env, files)
    ensures Escaping(args, env, files) == Some(TagLookupFailed) ==> |TagCalls(args, env, files)| == 1
    ensures TagCalls(args, env, files) != [] ==>
              var call := TagCalls(args, env, files)[0];
              call.dest == Dest(args, env) && call.searchTag == args.searchTag &&
              (call.CloudMusic? <==> env.crypter.scheme == NCM) &&
              (call.CloudMusic? ==> call.tagdata == env.crypter.tagdata && call.coverdata == env.crypter.coverdata)
  {
  }

  /** The object whose `emit`s the pipeline makes. */
  class Helper {
    var log: seq<Note>
    var tagCalls: seq<TagCall>   // the tag completers called through this helper

    constructor ()
      ensures log == [] && tagCalls == []
    {
      log := [];
      tagCalls := [];
    }

    /**
      `probe_file`. A crypter that sniffing could not classify is returned
      with the extension "unknown"; the crypter is rewound before and after
      sniffing when it is seekable, and is never closed here.
     */
    method ProbeFile(src: Path, open: OpenOutcome, crypter: Crypter, sniff: SniffOutcome) returns (r: ProbeResult)
      requires crypter.Valid()
      modifies this`log, crypter
      ensures open.OpenRaises? ==> r == ProbeRaised(CrypterUnbound) && log == old(log) + [Error(ProbeTypeFailed(src))]
      ensures open.OpenFalsy? ==> r == NotProbed && log == old(log)
      ensures open.Opened? && sniff.SniffRaises? ==> r == NotProbed && log == old(log) + [Error(ProbeFormatFailed(src))]
      ensures open.Opened? && sniff.Sniffed? ==>
                r == Probed(crypter, OutputExt(sniff.ext)) &&
                log == old(log) + (if sniff.ext == "" then [Warning(FormatUnknown(src))] else [])
      ensures crypter.Valid() && crypter.closed == old(crypter.closed) && crypter.closeCount == old(crypter.closeCount)
      ensures open.Opened? && crypter.seekable && sniff.Sniffed? ==> crypter.pos == 0
      ensures open.Opened? && !crypter.seekable ==> crypter.pos == Min(old(crypter.pos) + sniff.consumed, |crypter.plain|)
    {
      if open.OpenRaises? {
        log := log + [Error(ProbeTypeFailed(src))];
        return ProbeRaised(CrypterUnbound);
      }
      if open.OpenFalsy? {
        return NotProbed;
      }
      if crypter.seekable {
        crypter.Rewind();
      }
      crypter.Skip(sniff.consumed);
      if sniff.SniffRaises? {
        log := log + [Error(ProbeFormatFailed(src))];
        return NotProbed;
      }
      var ext := sniff.ext;
      if ext == "" {
        log := log + [Warning(FormatUnknown(src))];
        ext := Unknown;
      }
      if crypter.seekable {
        crypter.Rewind();
      }
      r := Probed(crypter, ext);
    }

    /**
      The second half of `decrypt`, once the destination `h` is open and
      empty: rewind a seekable crypter, write everything it yields into the
      destination and rewind the handle; when reading or writing raises,
      close and remove the destination instead. The crypter is closed in
      either case.
     */
    method WriteOut(fs: FileSystem, src: Path, dest: Path, crypter: Crypter, h: OutFile, env: Env)
      returns (destfile: OutFile?)
      requires crypter.Valid() && h.fs == fs && h.path == dest && h.pos == 0
      requires dest in fs.files && fs.files[dest] == []
      modifies this`log, fs, crypter, h
      ensures crypter.Valid() && crypter.closed && crypter.closeCount == old(crypter.closeCount) + 1
      ensures env.readFails || env.writeFails ==>
                destfile == null && h.closed && fs.files == old(fs.files) - {dest} &&
                log == old(log) + [Error(DecryptFailed(src, dest))]
      ensures !env.readFails && !env.writeFails ==>
                destfile == h && h.pos == 0 && h.closed == old(h.closed) && log == old(log) &&
                fs.files == old(fs.files)[dest := if crypter.seekable then crypter.plain
                                                  else crypter.plain[old(crypter.pos)..]]
    {
      if crypter.seekable {
        crypter.Rewind();
      }
      var data := crypter.Read(env.readFails);
      var ok := false;
      if data.Some? {
        assert Overwritten(fs.files[dest], h.pos, data.value) == data.value;
        ok := h.Write(data.value, env.writeFails);
      }
      if !ok {
        log := log + [Error(DecryptFailed(src, dest))];
        h.Close();
        fs.Remove(dest);
        crypter.Close();
        return null;
      }
      crypter.Close();
      h.Rewind();
      destfile := h;
    }

    /**
      `decrypt`. Without `overwrite` an existing destination is left alone
      and reported; with it, the existing file is removed first. Once the
      destination is created the crypter is closed exactly once, and a
      failed read or write removes the destination again.
     */
    method Decrypt(fs: FileSystem, src: Path, dest: Path, crypter: Crypter, overwrite: bool, env: Env)
      returns (destfile: OutFile?)
      requires crypter.Valid()
      modifies this`log, fs, crypter
      ensures crypter.Valid()
      ensures !overwrite && dest in old(fs.files) ==>
                destfile == null && fs.files == old(fs.files) && log == old(log) + [Error(DestExists(dest))] &&
                crypter.pos == old(crypter.pos)
      ensures (overwrite || dest !in old(fs.files)) && env.createFails ==>
                destfile == null && fs.files == old(fs.files) - {dest} &&
                log == old(log) + [Error(CreateFailed(dest))] && crypter.pos == old(crypter.pos)
      ensures (overwrite || dest !in old(fs.files)) && !env.createFails && (env.readFails || env.writeFails) ==>
                destfile == null && fs.files == old(fs.files) - {dest} &&
                log == old(log) + [Error(DecryptFailed(src, dest))]
      ensures (overwrite || dest !in old(fs.files)) && !env.createFails && !env.readFails && !env.writeFails ==>
                destfile != null && fresh(destfile) && destfile.fs == fs && destfile.path == dest &&
                destfile.pos == 0 && !destfile.closed && log == old(log) &&
                fs.files == old(fs.files)[dest := if crypter.seekable then crypter.plain
                                                  else crypter.plain[old(crypter.pos)..]]
      ensures if (overwrite || dest !in old(fs.files)) && !env.createFails
              then crypter.closed && crypter.closeCount == old(crypter.closeCount) + 1
              else crypter.closed == old(crypter.closed) && crypter.closeCount == old(crypter.closeCount)
    {
      ghost var files0 := fs.files;
      if overwrite && dest in fs.files {
        fs.Remove(dest);
      } else if dest !in fs.files {
        assert fs.files - {dest} == fs.files;
      }
      assert (overwrite || dest !in files0) ==> fs.files == files0 - {dest};
      var status, h := fs.CreateExclusive(dest, env.createFails);
      if status == FileExists {
        log := log + [Error(DestExists(dest))];
        return null;
      } else if status == OsError {
        log := log + [Error(CreateFailed(dest))];
        return null;
      }
      ghost var payload := if crypter.seekable then crypter.plain else crypter.plain[crypter.pos..];
      destfile := WriteOut(fs, src, dest, crypter, h, env);
      if destfile == null {
        assert (files0 - {dest})[dest := []] - {dest} == files0 - {dest};
      } else {
        assert (files0 - {dest})[dest := []][dest := payload] == files0[dest := payload];
      }
    }

    /**
      The tag step of `mainflow`: skipped unless `withTag`, skipped with a
      warning for an "unknown" extension, otherwise dispatched on the
      crypter's scheme: NCM to the cloud-music completer (with the embedded
      tag and cover data), QMCv1 and QMCv2 to the QQ-music completer, any
      other scheme only gets an "unsupported" notice. `raised` tells that
      the completer called raised.
     */
    method CompleteTags(withTag: bool, searchTag: bool, src: Path, dest: Path, ext: string,
                        crypter: Crypter, tag: TagOutcome)
      returns (raised: bool)
      modifies this`log, this`tagCalls
      ensures raised <==> withTag && ext != Unknown && crypter.scheme != OtherScheme && tag.TagRaises?
      ensures raised ==> log == old(log)
      ensures !raised ==> log == old(log) + TagNotes(withTag, src, dest, ext, crypter.scheme, tag)
      ensures tagCalls == old(tagCalls) +
                          TagCallsFor(withTag, searchTag, dest, ext, crypter.scheme, crypter.tagdata, crypter.coverdata)
    {
      raised := false;
      var scheme := crypter.scheme;
      if withTag {
        if ext == Unknown {
          log := log + [Warning(TagSkipped(src))];
        } else if scheme == NCM {
          tagCalls := tagCalls + [CloudMusic(dest, crypter.tagdata, crypter.coverdata, searchTag)];
          if tag.TagRaises? {
            return true;
          }
          if tag.found {
            log := log + [Info(TaggedFromCloudMusic(dest))];
          }
        } else if scheme == QMCv1 || scheme == QMCv2 {
          tagCalls := tagCalls + [QQMusic(dest, searchTag)];
          if tag.TagRaises? {
            return true;
          }
          if tag.found {
            log := log + [Info(TaggedFromQQMusic(dest))];
          }
        } else {
          log := log + [Info(TagUnsupported(dest))];
        }
      }
    }

    /**
      The end of `mainflow` once `decrypt` returned an output handle:
      report the decryption, complete tags, and close the output unless the
      tag completer raised.
     */
    method TagAndClose(h: OutFile, args: TaskArgs, ext: string, crypter: Crypter, tag: TagOutcome)
      returns (outcome: Outcome)
      requires !h.closed
      modifies this`log, this`tagCalls, h
      ensures log == old(log) + [Info(Decrypted(args.src, h.path))] +
                     TagNotes(args.withTag, args.src, h.path, ext, crypter.scheme, tag)
      ensures tagCalls == old(tagCalls) +
                          TagCallsFor(args.withTag, args.searchTag, h.path, ext, crypter.scheme,
                                      crypter.tagdata, crypter.coverdata)
      ensures outcome == if args.withTag && ext != Unknown && crypter.scheme != OtherScheme && tag.TagRaises?
                         then Raised(TagLookupFailed) else Returned
      ensures h.closed <==> outcome.Returned?
    {
      log := log + [Info(Decrypted(args.src, h.path))];
      var raised := CompleteTags(args.withTag, args.searchTag, args.src, h.path, ext, crypter, tag);
      if raised {
        return Raised(TagLookupFailed);
      }
      h.Close();
      outcome := Returned;
    }

    /**
      The part of `mainflow` after a successful probe that was not
      probe-only: rewind, announce and decrypt to the destination, then
      complete tags and close the output.
     */
    method DecryptAndTag(fs: FileSystem, args: TaskArgs, env: Env, crypter: Crypter, ext: string, ghost pos0: nat)
      returns (outcome: Outcome, ghost destfile: OutFile?)
      requires Probes(env) && !args.probeOnly && crypter == env.crypter && ext == Ext(env)
      requires crypter.Valid() && pos0 <= |crypter.plain|
      requires !crypter.seekable ==> crypter.pos == Min(pos0 + env.sniff.consumed, |crypter.plain|)
      modifies this`log, this`tagCalls, fs, crypter
      ensures outcome.Returned? <==> Escaping(args, env, old(fs.files)) == None
      ensures outcome.Raised? ==> Escaping(args, env, old(fs.files)) == Some(outcome.exc)
      ensures log == old(log) + [Info(Planned(args.src, crypter.scheme, Dest(args, env)))] +
                     DecryptNotes(args, env, old(fs.files))
      ensures tagCalls == old(tagCalls) + TagCalls(args, env, old(fs.files))
      ensures fs.files == FilesAfter(args, env, old(fs.files), pos0)
      ensures if Creates(args, env, old(fs.files))
              then crypter.closed && crypter.closeCount == old(crypter.closeCount) + 1
              else crypter.closed == old(crypter.closed) && crypter.closeCount == old(crypter.closeCount)
      ensures destfile != null <==> Writes(args, env, old(fs.files))
      ensures destfile != null ==> fresh(destfile) && destfile.path == Dest(args, env) &&
                                   (destfile.closed <==> outcome.Returned?)
    {
      var src := args.src;
      ghost var files0 := fs.files;
      if crypter.seekable {
        crypter.Rewind();
      }
      var dest := DestPath(args.destdir, src, ext);
      assert dest == Dest(args, env);
      log := log + [Info(Planned(src, crypter.scheme, dest))];

      var h := Decrypt(fs, src, dest, crypter, args.overwrite, env);
      if h == null {
        return Returned, null;
      }
      destfile := h;
      DecryptNotesWritten(log, args, env, files0);
      outcome := TagAndClose(h, args, ext, crypter, env.tag);
    }

    /**
      `mainflow`: probe, then (unless only probing) decrypt to
      `destdir / (stem + '.' + ext)`, then complete tags. The ghost result
      is the output handle `decrypt` returned, if it returned one.
     */
    method Mainflow(fs: FileSystem, args: TaskArgs, env: Env) returns (outcome: Outcome, ghost destfile: OutFile?)
      requires env.crypter.Valid()
      modifies this`log, this`tagCalls, fs, env.crypter
      ensures outcome.Returned? <==> Escaping(args, env, old(fs.files)) == None
      ensures outcome.Raised? ==> Escaping(args, env, old(fs.files)) == Some(outcome.exc)
      ensures log == old(log) + Transcript(args, env, old(fs.files))
      ensures tagCalls == old(tagCalls) + TagCalls(args, env, old(fs.files))
      ensures Probes(env) ==> old(env.crypter.pos) <= |env.crypter.plain|
      ensures fs.files == FilesAfter(args, env, old(fs.files), old(if env.open.Opened? then env.crypter.pos else 0))
      ensures env.open.Opened? ==>
                var c := env.crypter;
                if Creates(args, env, old(fs.files))
                then c.closed && c.closeCount == old(c.closeCount) + 1
                else c.closed == old(c.closed) && c.closeCount == old(c.closeCount)
      ensures destfile != null <==> Writes(args, env, old(fs.files))
      ensures destfile != null ==> fresh(destfile) && destfile.path == Dest(args, env) &&
                                   (destfile.closed <==> outcome.Returned?)
    {
      destfile := null;
      ghost var files0 := fs.files;
      var src := args.src;
      var probe := ProbeFile(src, env.open, env.crypter, env.sniff);
      if probe.ProbeRaised? {
        return Raised(probe.exc), null;
      }
      if probe.NotProbed? {
        log := log + [Error(Unsupported(src))];
        return Returned, null;
      }
      var crypter, ext := probe.crypter, probe.ext;
      assert Probes(env) && ext == Ext(env) && crypter == env.crypter;
      assert log == old(log) + SniffNotes(args, env);
      TranscriptProbed(old(log), args, env, files0);
      outcome, destfile := AfterProbe(fs, args, env, crypter, ext, old(crypter.pos));
    }

    /**
      The part of `mainflow` after a successful probe: with `probe_only`,
      one report naming the scheme and the upper-cased extension; otherwise
      decryption and tags.
     */
    method AfterProbe(fs: FileSystem, args: TaskArgs, env: Env, crypter: Crypter, ext: string, ghost pos0: nat)
      returns (outcome: Outcome, ghost destfile: OutFile?)
      requires Probes(env) && crypter == env.crypter && ext == Ext(env)
      requires crypter.Valid() && pos0 <= |crypter.plain|
      requires !crypter.seekable ==> crypter.pos == Min(pos0 + env.sniff.consumed, |crypter.plain|)
      modifies this`log, this`tagCalls, fs, crypter
      ensures outcome.Returned? <==> Escaping(args, env, old(fs.files)) == None
      ensures outcome.Raised? ==> Escaping(args, env, old(fs.files)) == Some(outcome.exc)
      ensures log == old(log) + ProbedNotes(args, env, old(fs.files))
      ensures tagCalls == old(tagCalls) + TagCalls(args, env, old(fs.files))
      ensures fs.files == FilesAfter(args, env, old(fs.files), pos0)
      ensures if Creates(args, env, old(fs.files))
              then crypter.closed && crypter.closeCount == old(crypter.closeCount) + 1
              else crypter.closed == old(crypter.closed) && crypter.closeCount == old(crypter.closeCount)
      ensures destfile != null <==> Writes(args, env, old(fs.files))
      ensures destfile != null ==> fresh(destfile) && destfile.path == Dest(args, env) &&
                                   (destfile.closed <==> outcome.Returned?)
    {
      if args.probeOnly {
        log := log + [Info(ProbeReport(args.src, crypter.scheme, Upper(ext)))];
        return Returned, null;
      }
      outcome, destfile := DecryptAndTag(fs, args, env, crypter, ext, pos0);
    }
  }

  /** One queued unit of work: a `mainflow` call and the `finished` signal. */
  class Task {
    const helper: Helper
    const file: Path
    const args: TaskArgs
    var emitted: seq<Completion>

    constructor (helper: Helper, file: Path, args: TaskArgs)
      ensures this.helper == helper && this.file == file && this.args == args && emitted == []
    {
      this.helper, this.file, this.args := helper, file, args;
      emitted := [];
    }

    /**
      `run`: whatever the pipeline does, exactly one completion is emitted,
      carrying None when `mainflow` returned and the escaping exception
      otherwise.
     */
    method Run(fs: FileSystem, env: Env)
      requires env.crypter.Valid()
      modifies this, helper, fs, env.crypter
      ensures emitted == old(emitted) + [Completion(file, Escaping(args, env, old(fs.files)))]
      ensures helper.log == old(helper.log) + Transcript(args, env, old(fs.files))
      ensures helper.tagCalls == old(helper.tagCalls) + TagCalls(args, env, old(fs.files))
      ensures fs.files == FilesAfter(args, env, old(fs.files), old(if env.open.Opened? then env.crypter.pos else 0))
    {
      var outcome, _ := helper.Mainflow(fs, args, env);
      if outcome.Raised? {
        emitted := emitted + [Completion(file, Some(outcome.exc))];
      } else {
        emitted := emitted + [Completion(file, None)];
      }
    }
  }
}
