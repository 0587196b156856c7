/**
  The batch bookkeeping of the main window (main.py): the list of opened
  files, submitting one task per file, and aggregating the tasks'
  completions. Qt hands each `finished` signal to the GUI thread one at a
  time, so completions are a sequence of calls of `TaskFinished`.

  The counters `cnt` and `success_cnt` and the set `folder_list`, which the
  source keeps as local variables of `start` captured by `task_finished`,
  are fields of `MainWindow` here.
 */
module Window {
  import opened Wrappers
  import opened Paths
  import opened Core

  /** The extensions `open_folder` accepts, compared case-sensitively. */
  const SupportedExts: set<string> := {".mflac", ".mgg", ".qmc", ".ncm", ".uc!"}

  predicate Supported(p: Path)
  {
    Splitext(p).1 in SupportedExts
  }

  /** No element occurs twice. */
  predicate NoDup<T(==)>(s: seq<T>)
  {
    s == [] || (s[0] !in s[1..] && NoDup(s[1..]))
  }

  lemma {:induction false} NoDupAppend<T>(s: seq<T>, x: T)
    requires NoDup(s) && x !in s
    ensures NoDup(s + [x])
  {
    if s != [] {
      assert (s + [x])[1..] == s[1..] + [x];
      NoDupAppend(s[1..], x);
    }
  }

  // ---------------------------------------------------------------------
  // The opened-file list as a value

  /** `list` after appending, in order, every path of `files` it does not yet hold. */
  function AddNew(list: seq<Path>, files: seq<Path>): seq<Path>
    decreases |files|
  {
    if files == [] then list
    else
      var prev := AddNew(list, files[..|files| - 1]);
      var f := files[|files| - 1];
      if f in prev then prev else prev + [f]
  }

  /** Adding keeps the existing entries where they were. */
  lemma {:induction false} AddNewKeepsPrefix(list: seq<Path>, files: seq<Path>)
    ensures |list| <= |AddNew(list, files)| && AddNew(list, files)[..|list|] == list
    decreases |files|
  {
    if files != [] {
      AddNewKeepsPrefix(list, files[..|files| - 1]);
    }
  }

  /** Afterwards the list holds exactly what it held plus the added paths. */
  lemma {:induction false} AddNewMembers(list: seq<Path>, files: seq<Path>)
    ensures forall x :: x in AddNew(list, files) <==> x in list || x in files
    decreases |files|
  {
    if files != [] {
      var init := files[..|files| - 1];
      AddNewMembers(list, init);
      assert files == init + [files[|files| - 1]];
    }
  }

  /** A duplicate-free list stays duplicate-free. */
  lemma {:induction false} AddNewNoDup(list: seq<Path>, files: seq<Path>)
    requires NoDup(list)
    ensures NoDup(AddNew(list, files))
    decreases |files|
  {
    if files != [] {
      AddNewNoDup(list, files[..|files| - 1]);
      var prev := AddNew(list, files[..|files| - 1]);
      var f := files[|files| - 1];
      if f !in prev {
        NoDupAppend(prev, f);
      }
    }
  }

  /** The paths of `paths` whose extension is supported, in order. */
  function SupportedOnly(paths: seq<Path>): seq<Path>
    decreases |paths|
  {
    if paths == [] then []
    else
      var init := SupportedOnly(paths[..|paths| - 1]);
      var p := paths[|paths| - 1];
      if Supported(p) then init + [p] else init
  }

  lemma {:induction false} SupportedOnlyMembers(paths: seq<Path>)
    ensures forall x :: x in SupportedOnly(paths) <==> x in paths && Supported(x)
    decreases |paths|
  {
    if paths != [] {
      var init := paths[..|paths| - 1];
      SupportedOnlyMembers(init);
      assert paths == init + [paths[|paths| - 1]];
    }
  }

  /** A hidden file named after an extension is skipped; a named one is kept. */
  lemma SupportedOnlyHidden()
    ensures SupportedOnly(["music/.ncm", "music/a.ncm"]) == ["music/a.ncm"]
  {
    SplitextHidden();
    assert !Supported("music/.ncm");
    assert ".ncm" in SupportedExts;
    assert Supported("music/a.ncm");
    var ps: seq<Path> := ["music/.ncm", "music/a.ncm"];
    var hidden: seq<Path> := ["music/.ncm"];
    assert hidden[..0] == [];
    assert SupportedOnly(hidden) == [];
    assert ps[..1] == hidden;
  }

  /** The entries of `list` that are not in `gone`, in order. */
  function Without(list: seq<Path>, gone: set<Path>): seq<Path>
  {
    if list == [] then []
    else if list[0] in gone then Without(list[1..], gone)
    else [list[0]] + Without(list[1..], gone)
  }

  lemma {:induction false} WithoutMembers(list: seq<Path>, gone: set<Path>)
    ensures forall x :: x in Without(list, gone) <==> x in list && x !in gone
  {
    if list != [] {
      WithoutMembers(list[1..], gone);
      assert list == [list[0]] + list[1..];
    }
  }

  lemma {:induction false} WithoutNoDup(list: seq<Path>, gone: set<Path>)
    requires NoDup(list)
    ensures NoDup(Without(list, gone))
  {
    if list != [] {
      WithoutNoDup(list[1..], gone);
      WithoutMembers(list[1..], gone);
    }
  }

  lemma {:induction false} WithoutTwice(list: seq<Path>, a: set<Path>, b: set<Path>)
    ensures Without(Without(list, a), b) == Without(list, a + b)
  {
    if list != [] {
      WithoutTwice(list[1..], a, b);
    }
  }

  lemma {:induction false} WithoutNothing(list: seq<Path>, gone: set<Path>)
    requires forall x :: x in list ==> x !in gone
    ensures Without(list, gone) == list
  {
    if list != [] {
      WithoutNothing(list[1..], gone);
    }
  }

  /** `list.remove(x)` for an `x` in the list: drops its first occurrence. */
  function RemoveFirst(list: seq<Path>, x: Path): seq<Path>
  {
    if list == [] then []
    else if list[0] == x then list[1..]
    else [list[0]] + RemoveFirst(list[1..], x)
  }

  /** In a duplicate-free list, removing the first occurrence removes every occurrence. */
  lemma {:induction false} RemoveFirstIsWithout(list: seq<Path>, x: Path)
    requires NoDup(list)
    ensures RemoveFirst(list, x) == Without(list, {x})
  {
    if list != [] {
      if list[0] == x {
        WithoutNothing(list[1..], {x});
      } else {
        RemoveFirstIsWithout(list[1..], x);
      }
    }
  }

  lemma {:induction false} RemoveFirstMultiset(list: seq<Path>, x: Path)
    requires x in list
    ensures multiset(RemoveFirst(list, x)) == multiset(list) - multiset{x}
  {
    assert list == [list[0]] + list[1..];
    if list[0] != x {
      RemoveFirstMultiset(list[1..], x);
    }
  }

  /** One entry of the list view's `selectedIndexes()`. */
  datatype SelectedIndex = SelectedIndex(valid: bool, data: Path)

  function SelectedPaths(selected: seq<SelectedIndex>): set<Path>
  {
    set i | 0 <= i < |selected| && selected[i].valid :: selected[i].data
  }

  // ---------------------------------------------------------------------
  // Submission

  /** The check boxes and fields of the window's option panels. */
  datatype Options = Options(noParallel: bool, maxThreadCount: nat, useSourcePath: bool, outputPath: Path,
                             testOnly: bool, noTag: bool, avoidSearchingTag: bool, tryFallback: bool,
                             overwrite: bool, openDistFolder: bool)

  /** The destination directory of a file: its own directory, or the output path. */
  function DestDir(file: Path, o: Options): Path
  {
    if o.useSourcePath then Parent(file) else o.outputPath
  }

  /** `t` is the keyword set `start` builds for `file`. */
  ghost predicate TaskFor(t: TaskArgs, file: Path, o: Options)
  {
    t.src == file && t.destdir == DestDir(file, o) && t.probeOnly == o.testOnly &&
    t.withTag == !o.noTag && t.searchTag == !o.avoidSearchingTag &&
    t.tryFallback == o.tryFallback && t.overwrite == o.overwrite
  }

  /** `tasks` are the tasks for `files`, one each, in order. */
  ghost predicate TasksFor(tasks: seq<TaskArgs>, files: seq<Path>, o: Options)
  {
    |tasks| == |files| && forall k :: 0 <= k < |files| ==> TaskFor(tasks[k], files[k], o)
  }

  /** The folders opened at the end of a batch: the destination directories, if asked for. */
  ghost function FoldersFor(files: seq<Path>, o: Options): set<Path>
  {
    if o.openDistFolder then (set f | f in files :: DestDir(f, o)) else {}
  }

  /**
    The loop of `start`: one task per opened file, in order, and, when the
    output folders are to be opened, the set of their destination
    directories.
   */
  method Submissions(files: seq<Path>, o: Options) returns (tasks: seq<TaskArgs>, folders: set<Path>)
    ensures TasksFor(tasks, files, o)
    ensures folders == FoldersFor(files, o)
  {
    tasks, folders := [], {};
    var i := 0;
    while i < |files|
      invariant 0 <= i <= |files|
      invariant |tasks| == i
      invariant forall k :: 0 <= k < i ==> TaskFor(tasks[k], files[k], o)
      invariant folders == if o.openDistFolder then (set f | f in files[..i] :: DestDir(f, o)) else {}
    {
      var src := files[i];
      var destdir := if o.useSourcePath then Parent(src) else o.outputPath;
      var kwargs := TaskArgs(src, destdir, o.testOnly, !o.noTag, !o.avoidSearchingTag, o.tryFallback, o.overwrite);
      if o.openDistFolder {
        folders := folders + {destdir};
      }
      assert files[..i + 1] == files[..i] + [src];
      tasks := tasks + [kwargs];
      i := i + 1;
    }
    assert files[..i] == files;
  }

  /** `for folder in folder_list: os.startfile(folder)`: each folder once, in some order. */
  method OpenFolders(folders: set<Path>) returns (calls: seq<Path>)
    ensures NoDup(calls)
    ensures forall f :: f in calls <==> f in folders
    ensures |calls| == |folders|
  {
    calls := [];
    var rest := folders;
    while rest != {}
      invariant rest <= folders
      invariant NoDup(calls)
      invariant forall f :: f in calls <==> f in folders && f !in rest
      invariant |calls| + |rest| == |folders|
      decreases |rest|
    {
      var f :| f in rest;
      NoDupAppend(calls, f);
      calls := calls + [f];
      rest := rest - {f};
    }
  }

  // ---------------------------------------------------------------------
  // Completion

  /** What the window writes to its message box, and the warning dialog of `start`. */
  datatype Message =
    | NoFileSelected
    | StartDecrypt
    | TaskSucceeded(file: Path)
    | TaskTagFailed(file: Path)
    | TaskFailed(file: Path)
    | AllDone(total: nat, succeeded: nat)

  datatype ClassName = CompleteExceptionClass | ExceptionClass

  /**
    A Python value as `task_finished` sees its `e`: None, an exception
    instance, or (what `is` compares it with) an exception class object.
   */
  datatype PyValue = PyNone | Instance(exc: Exc) | ClassObject(cls: ClassName)

  /** The value the `finished` signal delivers for a completion. */
  function AsPy(e: Option<Exc>): PyValue
  {
    if e.None? then PyNone else Instance(e.value)
  }

  /** `v is cls`: identity with the class object itself. */
  predicate Is(v: PyValue, cls: ClassName)
  {
    v == ClassObject(cls)
  }

  /** `e == None or e is CompleteException` */
  predicate CountsAsSuccess(v: PyValue)
  {
    v == PyNone || Is(v, CompleteExceptionClass)
  }

  /** The per-task message of `task_finished`. */
  function Classify(file: Path, v: PyValue): Message
  {
    if Is(v, CompleteExceptionClass) then TaskTagFailed(file)
    else if Is(v, ExceptionClass) then TaskFailed(file)
    else TaskSucceeded(file)
  }

  /**
    What the two `is` tests amount to for the values `run` emits: a
    completion counts as a success exactly when no exception escaped, and
    its message always says the decryption succeeded.
   */
  lemma ClassifiedAsSucceeded(file: Path, e: Option<Exc>)
    ensures CountsAsSuccess(AsPy(e)) <==> e == None
    ensures Classify(file, AsPy(e)) == TaskSucceeded(file)
  {
  }

  class MainWindow {
    var openedFiles: seq<Path>
    var options: Options
    var uiEnabled: bool           // the input, output and option panels and the start button
    var progressMax: nat
    var progressValue: nat
    var poolSize: nat             // the thread pool's maximum thread count
    var cnt: nat
    var successCnt: nat
    var folderList: set<Path>
    var submitted: seq<TaskArgs>  // tasks handed to the thread pool, in order
    var log: seq<Message>
    var startedFolders: seq<Path> // folders passed to `os.startfile`, in order
    ghost var pending: seq<Path>  // files of submitted tasks whose completion has not arrived

    ghost predicate Valid()
      reads this
    {
      NoDup(openedFiles) && NoDup(pending) && successCnt <= cnt &&
      (uiEnabled <==> pending == []) &&
      (!uiEnabled ==> cnt + |pending| == progressMax)
    }

    /** Every file still due to complete is in the opened-file list. */
    ghost predicate Listed()
      reads this
    {
      forall f :: f in pending ==> f in openedFiles
    }

    constructor (options: Options)
      ensures Valid() && Listed()
      ensures openedFiles == [] && this.options == options && uiEnabled && poolSize == 20
      ensures submitted == [] && log == [] && startedFolders == [] && pending == []
    {
      openedFiles, this.options, uiEnabled := [], options, true;
      progressMax, progressValue, poolSize := 100, 0, 20;
      cnt, successCnt, folderList := 0, 0, {};
      submitted, log, startedFolders, pending := [], [], [], [];
    }

    /** The user changes the options; their panel is disabled while a batch runs. */
    method SetOptions(o: Options)
      requires uiEnabled
      modifies this`options
      ensures options == o
    {
      options := o;
    }

    /** `open_files`: the chosen files not yet listed are appended, in order. */
    method OpenFiles(files: seq<Path>)
      requires Valid()
      modifies this`openedFiles
      ensures Valid()
      ensures openedFiles == AddNew(old(openedFiles), files)
      ensures old(Listed()) ==> Listed()
    {
      var i := 0;
      while i < |files|
        invariant 0 <= i <= |files|
        invariant openedFiles == AddNew(old(openedFiles), files[..i])
      {
        assert files[..i + 1][..i] == files[..i];
        if files[i] !in openedFiles {
          openedFiles := openedFiles + [files[i]];
        }
        i := i + 1;
      }
      assert files[..i] == files;
      AddNewNoDup(old(openedFiles), files);
      AddNewMembers(old(openedFiles), files);
    }

    /**
      `open_folder`: when a directory was chosen, every file found under it
      whose extension is supported and that is not yet listed is appended,
      in the order of the walk.
     */
    method OpenFolder(dir: Path, walked: seq<Path>)
      requires Valid()
      modifies this`openedFiles
      ensures Valid()
      ensures openedFiles == if |dir| > 0 then AddNew(old(openedFiles), SupportedOnly(walked)) else old(openedFiles)
      ensures old(Listed()) ==> Listed()
    {
      if |dir| > 0 {
        var i := 0;
        while i < |walked|
          invariant 0 <= i <= |walked|
          invariant openedFiles == AddNew(old(openedFiles), SupportedOnly(walked[..i]))
        {
          var path := walked[i];
          assert walked[..i + 1][..i] == walked[..i];
          if path !in openedFiles {
            if Splitext(path).1 in SupportedExts {
              openedFiles := openedFiles + [path];
            }
          } else if Supported(path) {
            assert SupportedOnly(walked[..i + 1]) == SupportedOnly(walked[..i]) + [path];
          }
          i := i + 1;
        }
        assert walked[..i] == walked;
        AddNewNoDup(old(openedFiles), SupportedOnly(walked));
        AddNewMembers(old(openedFiles), SupportedOnly(walked));
      }
    }

    /** `remove_items`: removes exactly the selected entries; the rest keep their order. */
    method RemoveItems(selected: seq<SelectedIndex>)
      requires Valid()
      modifies this`openedFiles
      ensures Valid()
      ensures openedFiles == Without(old(openedFiles), SelectedPaths(selected))
      ensures old(Listed()) && (forall f :: f in pending ==> f !in SelectedPaths(selected)) ==> Listed()
    {
      WithoutNothing(openedFiles, {});
      assert SelectedPaths(selected[..0]) == {};
      var i := 0;
      while i < |selected|
        invariant 0 <= i <= |selected|
        invariant openedFiles == Without(old(openedFiles), SelectedPaths(selected[..i]))
        invariant NoDup(openedFiles)
      {
        var index := selected[i];
        assert selected[..i + 1] == selected[..i] + [index];
        if index.valid {
          assert SelectedPaths(selected[..i + 1]) == SelectedPaths(selected[..i]) + {index.data};
          WithoutTwice(old(openedFiles), SelectedPaths(selected[..i]), {index.data});
          if index.data in openedFiles {
            RemoveFirstIsWithout(openedFiles, index.data);
            WithoutNoDup(openedFiles, {index.data});
            openedFiles := RemoveFirst(openedFiles, index.data);
          } else {
            WithoutNothing(openedFiles, {index.data});
          }
        } else {
          assert SelectedPaths(selected[..i + 1]) == SelectedPaths(selected[..i]);
        }
        i := i + 1;
      }
      assert selected[..i] == selected;
      WithoutMembers(old(openedFiles), SelectedPaths(selected));
    }

    /**
      `start`: with no file listed, only the warning dialog; otherwise the
      panels are disabled, the progress maximum is the number of files, the
      counters start at 0, the pool gets one thread in serial mode, and one
      task per listed file is submitted.
     */
    method Start()
      requires Valid() && uiEnabled
      modifies this`uiEnabled, this`progressMax, this`progressValue, this`cnt, this`successCnt, this`poolSize,
               this`log, this`folderList, this`submitted, this`pending
      ensures Valid()
      ensures old(openedFiles) == [] ==>
                log == old(log) + [NoFileSelected] && uiEnabled && pending == [] &&
                progressMax == old(progressMax) && progressValue == old(progressValue) &&
                submitted == old(submitted) && poolSize == old(poolSize) &&
                cnt == old(cnt) && successCnt == old(successCnt) && folderList == old(folderList)
      ensures old(openedFiles) != [] ==>
                !uiEnabled && progressMax == |openedFiles| && progressValue == 0 &&
                cnt == 0 && successCnt == 0 && pending == openedFiles && Listed() &&
                poolSize == (if options.noParallel then 1 else options.maxThreadCount) &&
                log == old(log) + [StartDecrypt] &&
                |old(submitted)| <= |submitted| && submitted[..|old(submitted)|] == old(submitted) &&
                TasksFor(submitted[|old(submitted)|..], openedFiles, options) &&
                folderList == FoldersFor(openedFiles, options)
    {
      if !(|openedFiles| > 0) {
        log := log + [NoFileSelected];
        return;
      }
      Reset();
      SubmitAll();
    }

    /** The part of `start` before the loop: panels, progress bar, counters, pool size, message. */
    method Reset()
      requires openedFiles != []
      modifies this`uiEnabled, this`progressMax, this`progressValue, this`cnt, this`successCnt, this`poolSize,
               this`log
      ensures !uiEnabled && progressMax == |openedFiles| && progressValue == 0 && cnt == 0 && successCnt == 0
      ensures poolSize == (if options.noParallel then 1 else options.maxThreadCount)
      ensures log == old(log) + [StartDecrypt]
    {
      uiEnabled := false;
      progressMax, progressValue := |openedFiles|, 0;
      cnt, successCnt := 0, 0;
      if options.noParallel {
        poolSize := 1;
      } else {
        poolSize := options.maxThreadCount;
      }
      log := log + [StartDecrypt];
    }

    /** The loop of `start`: one task per listed file handed to the pool, each then pending. */
    method SubmitAll()
      modifies this`folderList, this`submitted, this`pending
      ensures pending == openedFiles
      ensures |old(submitted)| <= |submitted| && submitted[..|old(submitted)|] == old(submitted)
      ensures TasksFor(submitted[|old(submitted)|..], openedFiles, options)
      ensures folderList == FoldersFor(openedFiles, options)
    {
      var tasks, folders := Submissions(openedFiles, options);
      folderList := folders;
      assert (submitted + tasks)[|submitted|..] == tasks;
      submitted := submitted + tasks;
      pending := openedFiles;
    }

    /** The first part of `task_finished`: the counters and the per-task message. */
    method Tally(file: Path, e: Option<Exc>)
      modifies this`cnt, this`successCnt, this`log
      ensures cnt == old(cnt) + 1
      ensures successCnt == old(successCnt) + (if e == None then 1 else 0)
      ensures log == old(log) + if options.testOnly then [] else [TaskSucceeded(file)]
    {
      var v := AsPy(e);
      cnt := cnt + 1;
      if v == PyNone || Is(v, CompleteExceptionClass) {
        successCnt := successCnt + 1;
      }
      if !options.testOnly {
        ClassifiedAsSucceeded(file, e);
        log := log + [Classify(file, v)];
      }
    }

    /** The batch's end: panels enabled, the summary, and each collected folder opened once. */
    method Finalise()
      modifies this`uiEnabled, this`log, this`startedFolders
      ensures uiEnabled && log == old(log) + [AllDone(cnt, successCnt)]
      ensures OpenedOnce(old(startedFolders), startedFolders, folderList)
    {
      uiEnabled := true;
      log := log + [AllDone(cnt, successCnt)];
      var calls := OpenFolders(folderList);
      assert (startedFolders + calls)[|startedFolders|..] == calls;
      startedFolders := startedFolders + calls;
    }

    /**
      `task_finished`: counts the completion, counts it as a success when no
      exception escaped, writes the per-task message unless only probing,
      finalises when the count reaches the progress maximum, and removes the
      file from the list. `raised` tells that `remove` raised because the
      file was no longer listed.
     */
    method TaskFinished(file: Path, e: Option<Exc>) returns (raised: bool)
      requires Valid() && file in pending
      modifies this`cnt, this`successCnt, this`log, this`pending, this`uiEnabled, this`startedFolders,
               this`progressValue, this`openedFiles
      ensures Valid()
      ensures cnt == old(cnt) + 1 && progressValue == cnt
      ensures successCnt == old(successCnt) + (if e == None then 1 else 0)
      ensures pending == Without(old(pending), {file})
      ensures uiEnabled <==> old(pending) == [file]
      ensures log == old(log) + (if options.testOnly then [] else [TaskSucceeded(file)]) +
                     (if uiEnabled then [AllDone(cnt, successCnt)] else [])
      ensures uiEnabled ==> cnt == progressMax
      ensures if uiEnabled then OpenedOnce(old(startedFolders), startedFolders, folderList)
              else startedFolders == old(startedFolders)
      ensures raised <==> file !in old(openedFiles)
      ensures openedFiles == Without(old(openedFiles), {file})
      ensures old(Listed()) ==> Listed() && !raised
    {
      Tally(file, e);
      RemovePending(pending, file);
      pending := RemoveFirst(pending, file);
      if cnt >= progressMax {
        Finalise();
      }
      progressValue := cnt;
      RemoveListed(old(pending), openedFiles, file);
      if file in openedFiles {
        openedFiles := RemoveFirst(openedFiles, file);
        raised := false;
      } else {
        raised := true;
      }
    }

    /**
      The state after the GUI thread has delivered the first `i` of a
      batch's completions, relative to the state before the first one:
      the remaining completions name the pending files; the counters,
      the log, the opened folders and the file list reflect the delivered
      ones; the batch is finalised exactly when all are delivered.
     */
    ghost predicate Delivered(events: seq<Completion>, i: int, log0: seq<Message>, started0: seq<Path>,
                              opened0: seq<Path>, success0: nat)
      reads this
    {
      0 <= i <= |events| && Valid() && Listed() &&
      multiset(FilesOf(events[i..])) == multiset(pending) &&
      successCnt == success0 + Successes(events[..i]) &&
      (uiEnabled <==> i == |events|) && (uiEnabled ==> cnt == progressMax) &&
      (0 < i ==> progressValue == cnt) &&
      log == log0 + Reports(events[..i], options.testOnly) +
             (if uiEnabled then [AllDone(progressMax, successCnt)] else []) &&
      (if uiEnabled then OpenedOnce(started0, startedFolders, folderList) else startedFolders == started0) &&
      openedFiles == Without(opened0, FileSet(events[..i]))
    }

    /** Delivering the next completion of the batch: one `task_finished` call. */
    method DeliverNext(events: seq<Completion>, i: nat, ghost log0: seq<Message>, ghost started0: seq<Path>,
                       ghost opened0: seq<Path>, ghost success0: nat)
      returns (next: nat)
      requires i < |events| && Delivered(events, i, log0, started0, opened0, success0)
      modifies this`cnt, this`successCnt, this`log, this`pending, this`uiEnabled, this`startedFolders,
               this`progressValue, this`openedFiles
      ensures next == i + 1 && Delivered(events, next, log0, started0, opened0, success0)
    {
      var ev := events[i];
      DeliverStep(events, i, pending);
      SuccessesStep(events, i);
      FileSetStep(events, i);
      WithoutTwice(opened0, FileSet(events[..i]), {ev.file});
      ghost var before := log;
      var raised := TaskFinished(ev.file, ev.error);
      LogStep(log0, before, log, events, i, options.testOnly,
              if uiEnabled then [AllDone(progressMax, successCnt)] else []);
      next := i + 1;
    }

    /**
      The GUI thread delivering the completions of a whole batch, one per
      submitted task in any order: the batch is finalised exactly once, at
      the last completion, with one summary that ends the log; the success
      count grows by the number of completions without an exception; each
      collected folder is opened once; the delivered files leave the list.
     */
    method DeliverAll(events: seq<Completion>)
      requires Valid() && Listed() && !uiEnabled
      requires multiset(FilesOf(events)) == multiset(pending)
      modifies this`cnt, this`successCnt, this`log, this`pending, this`uiEnabled, this`startedFolders,
               this`progressValue, this`openedFiles
      ensures Valid() && Listed() && uiEnabled && pending == []
      ensures cnt == progressMax && progressValue == progressMax
      ensures successCnt == old(successCnt) + Successes(events)
      ensures log == old(log) + Reports(events, options.testOnly) + [AllDone(progressMax, successCnt)]
      ensures forall k :: |old(log)| <= k < |log| - 1 ==> !log[k].AllDone?
      ensures OpenedOnce(old(startedFolders), startedFolders, folderList)
      ensures openedFiles == Without(old(openedFiles), set f | f in old(pending))
    {
      DeliveredInitially(events);
      var i := 0;
      while i < |events|
        invariant Delivered(events, i, old(log), old(startedFolders), old(openedFiles), old(successCnt))
        invariant 0 < |events|
      {
        i := DeliverNext(events, i, old(log), old(startedFolders), old(openedFiles), old(successCnt));
      }
      DeliveredFinally(events, old(pending), old(log), old(startedFolders), old(openedFiles), old(successCnt));
    }

    /** Before the first completion nothing is delivered. */
    lemma DeliveredInitially(events: seq<Completion>)
      requires Valid() && Listed() && !uiEnabled
      requires multiset(FilesOf(events)) == multiset(pending)
      ensures events != [] && Delivered(events, 0, log, startedFolders, openedFiles, successCnt)
    {
      assert events[0..] == events;
      assert |multiset(pending)| == |pending|;
      assert events[..0] == [];
      assert FileSet(events[..0]) == {};
      WithoutNothing(openedFiles, {});
    }

    /** Once every completion is delivered, the batch is over. */
    lemma DeliveredFinally(events: seq<Completion>, pending0: seq<Path>, log0: seq<Message>,
                           started0: seq<Path>, opened0: seq<Path>, success0: nat)
      requires events != [] && Delivered(events, |events|, log0, started0, opened0, success0)
      requires multiset(FilesOf(events)) == multiset(pending0)
      ensures uiEnabled && pending == [] && cnt == progressMax && progressValue == progressMax
      ensures successCnt == success0 + Successes(events)
      ensures log == log0 + Reports(events, options.testOnly) + [AllDone(progressMax, successCnt)]
      ensures forall k :: |log0| <= k < |log| - 1 ==> !log[k].AllDone?
      ensures OpenedOnce(started0, startedFolders, folderList)
      ensures openedFiles == Without(opened0, set f | f in pending0)
    {
      assert events[..|events|] == events;
      FileSetPending(events, pending0);
      ReportsNoSummary(events, options.testOnly);
    }
  }

  /** `after` is `before` followed by each of `folders` exactly once. */
  ghost predicate OpenedOnce(before: seq<Path>, after: seq<Path>, folders: set<Path>)
  {
    |after| == |before| + |folders| && after[..|before|] == before &&
    NoDup(after[|before|..]) && (forall f :: f in after[|before|..] <==> f in folders)
  }

  /** Removing a pending file: one entry fewer, still duplicate-free. */
  lemma RemovePending(pending: seq<Path>, file: Path)
    requires NoDup(pending) && file in pending
    ensures RemoveFirst(pending, file) == Without(pending, {file})
    ensures NoDup(RemoveFirst(pending, file))
    ensures |RemoveFirst(pending, file)| == |pending| - 1
    ensures RemoveFirst(pending, file) == [] <==> pending == [file]
  {
    RemoveFirstIsWithout(pending, file);
    WithoutNoDup(pending, {file});
    RemoveFirstMultiset(pending, file);
    assert |RemoveFirst(pending, file)| == |multiset(RemoveFirst(pending, file))|;
    if pending == [file] {
      assert RemoveFirst(pending, file) == [];
    }
    if RemoveFirst(pending, file) == [] {
      assert multiset(pending) == multiset{file};
      assert pending == [pending[0]];
    }
  }

  /** Removing a file from the list keeps it duplicate-free and keeps the pending files listed. */
  lemma RemoveListed(pending: seq<Path>, list: seq<Path>, file: Path)
    requires NoDup(list)
    ensures NoDup(Without(list, {file}))
    ensures file in list ==> RemoveFirst(list, file) == Without(list, {file})
    ensures file !in list ==> list == Without(list, {file})
    ensures (forall f :: f in pending ==> f in list) ==>
              forall f :: f in Without(pending, {file}) ==> f in Without(list, {file})
  {
    RemoveFirstIsWithout(list, file);
    WithoutNoDup(list, {file});
    WithoutMembers(list, {file});
    WithoutMembers(pending, {file});
    if file !in list {
      WithoutNothing(list, {file});
    }
  }

  function FilesOf(events: seq<Completion>): (files: seq<Path>)
    ensures |files| == |events|
    ensures forall k :: 0 <= k < |events| ==> files[k] == events[k].file
  {
    if events == [] then [] else [events[0].file] + FilesOf(events[1..])
  }

  /**
    The completion at `i` names a pending file; once it is removed, the
    rest of the completions name the rest of the pending files, and it was
    the last pending file exactly when it is the last completion.
   */
  lemma DeliverStep(events: seq<Completion>, i: nat, pending: seq<Path>)
    requires i < |events| && NoDup(pending)
    requires multiset(FilesOf(events[i..])) == multiset(pending)
    ensures events[i].file in pending
    ensures multiset(FilesOf(events[i + 1..])) == multiset(Without(pending, {events[i].file}))
    ensures pending == [events[i].file] <==> i + 1 == |events|
  {
    var f := events[i].file;
    DeliverMultiset(events, i, pending);
    RemoveFirstIsWithout(pending, f);
    RemoveFirstMultiset(pending, f);
    SingletonIff(pending, f);
  }

  /** The completion at `i` names a pending file, and the rest name the others. */
  lemma DeliverMultiset(events: seq<Completion>, i: nat, pending: seq<Path>)
    requires i < |events|
    requires multiset(FilesOf(events[i..])) == multiset(pending)
    ensures events[i].file in pending
    ensures multiset(FilesOf(events[i + 1..])) == multiset(pending) - multiset{events[i].file}
    ensures |pending| == |events| - i
  {
    FilesOfStep(events, i);
    assert events[i].file in multiset(pending);
    assert |multiset(pending)| == |multiset(FilesOf(events[i..]))|;
  }

  lemma FilesOfStep(events: seq<Completion>, i: nat)
    requires i < |events|
    ensures FilesOf(events[i..]) == [events[i].file] + FilesOf(events[i + 1..])
  {
    assert events[i..][1..] == events[i + 1..];
  }

  lemma SingletonIff(list: seq<Path>, x: Path)
    requires x in list
    ensures list == [x] <==> |list| == 1
  {
  }

  /** The per-task messages of a sequence of completions: one "succeeded" each, none when only probing. */
  function Reports(events: seq<Completion>, testOnly: bool): seq<Message>
  {
    if testOnly then [] else seq(|events|, k requires 0 <= k < |events| => TaskSucceeded(events[k].file))
  }

  lemma ReportsStep(events: seq<Completion>, i: nat, testOnly: bool)
    requires i < |events|
    ensures Reports(events[..i + 1], testOnly) ==
            Reports(events[..i], testOnly) + if testOnly then [] else [TaskSucceeded(events[i].file)]
  {
  }

  /** No per-task message is a summary. */
  lemma ReportsNoSummary(events: seq<Completion>, testOnly: bool)
    ensures forall k :: 0 <= k < |Reports(events, testOnly)| ==> !Reports(events, testOnly)[k].AllDone?
  {
  }

  /** One more completion's message, possibly followed by the summary, extends the log. */
  lemma LogStep(log0: seq<Message>, before: seq<Message>, after: seq<Message>,
                events: seq<Completion>, i: nat, testOnly: bool, tail: seq<Message>)
    requires i < |events|
    requires before == log0 + Reports(events[..i], testOnly)
    requires after == before + (if testOnly then [] else [TaskSucceeded(events[i].file)]) + tail
    ensures after == log0 + Reports(events[..i + 1], testOnly) + tail
  {
    ReportsStep(events, i, testOnly);
  }

  /** The files the completions name. */
  ghost function FileSet(events: seq<Completion>): set<Path>
  {
    set k | 0 <= k < |events| :: events[k].file
  }

  lemma FileSetStep(events: seq<Completion>, i: nat)
    requires i < |events|
    ensures FileSet(events[..i + 1]) == FileSet(events[..i]) + {events[i].file}
  {
    assert events[i] == events[..i + 1][i];
  }

  /** Completions naming the pending files, each once, name exactly the pending files. */
  lemma FileSetPending(events: seq<Completion>, pending: seq<Path>)
    requires multiset(FilesOf(events)) == multiset(pending)
    ensures FileSet(events) == set f | f in pending
  {
    forall f | f in FileSet(events) ensures f in pending {
      var k :| 0 <= k < |events| && events[k].file == f;
      assert FilesOf(events)[k] == f;
      assert f in multiset(FilesOf(events));
    }
    forall f | f in pending ensures f in FileSet(events) {
      assert f in multiset(FilesOf(events));
      var k :| 0 <= k < |FilesOf(events)| && FilesOf(events)[k] == f;
    }
  }

  /** The number of completions that carry no exception. */
  function Successes(events: seq<Completion>): nat
  {
    if events == [] then 0 else (if events[0].error == None then 1 else 0) + Successes(events[1..])
  }

  lemma SuccessesStep(events: seq<Completion>, i: nat)
    requires i < |events|
    ensures Successes(events[..i + 1]) == Successes(events[..i]) + (if events[i].error == None then 1 else 0)
  {
    assert events[..i + 1] == events[..i] + [events[i]];
    SuccessesAppend(events[..i], events[i]);
  }

  lemma {:induction false} SuccessesAppend(events: seq<Completion>, ev: Completion)
    ensures Successes(events + [ev]) == Successes(events) + (if ev.error == None then 1 else 0)
  {
    if events != [] {
      assert (events + [ev])[1..] == events[1..] + [ev];
      SuccessesAppend(events[1..], ev);
    }
  }
}
