/**
  The monitor-pattern directory walk of concurency6/main.cpp.
  isDirsEmpty, putFile, putDir and getDirs hold the monitor's mutex for
  their whole body, so each one is modelled as a single atomic step.
  getResult takes no lock; it is a single step only because listAllFiles
  calls it after the last round's barrier, when no task is left running.
  Tasks of one batch run one after another in dispatch order, which is
  one of the schedules the threads may take.
*/
module MonitorWalk {
  import opened Wrappers
  import opened Seqs
  import opened FileTree

  /** How many directories one round hands out (the argument of getDirs). */
  const BatchSize := 16

  class MonitorResult {
    var files: seq<string>
    var dirs: seq<Dir>

    constructor ()
      ensures files == [] && dirs == []
    {
      files, dirs := [], [];
    }

    /** A read under the lock: changes nothing. */
    method IsDirsEmpty() returns (empty: bool)
      ensures empty <==> dirs == []
    {
      empty := dirs == [];
    }

    method PutFile(file: string)
      modifies this
      ensures files == old(files) + [file]
      ensures dirs == old(dirs)
    {
      files := files + [file];
    }

    method PutDir(pth: Dir)
      modifies this
      ensures dirs == old(dirs) + [pth]
      ensures files == old(files)
    {
      dirs := dirs + [pth];
    }

    /** Pops up to n directories from the back; the last one pending comes first. */
    method GetDirs(n: int) returns (taken: seq<Dir>)
      modifies this
      ensures |taken| == if n <= 0 then 0 else if n < |old(dirs)| then n else |old(dirs)|
      ensures dirs == old(dirs)[..|old(dirs)| - |taken|]
      ensures taken == Reverse(old(dirs)[|old(dirs)| - |taken|..])
      ensures files == old(files)
    {
      taken := [];
      var i := 0;
      while i < n && dirs != []
        invariant 0 <= i <= |old(dirs)|
        invariant i == 0 || i <= n
        invariant dirs == old(dirs)[..|old(dirs)| - i]
        invariant taken == Reverse(old(dirs)[|old(dirs)| - i..])
        invariant files == old(files)
        decreases |dirs|
      {
        ghost var start := |old(dirs)| - i - 1;
        assert old(dirs)[start..][1..] == old(dirs)[|old(dirs)| - i..];
        taken := taken + [dirs[|dirs| - 1]];
        dirs := dirs[..|dirs| - 1];
        i := i + 1;
        ReverseAppend(old(dirs)[start..start + 1], old(dirs)[start + 1..]);
        assert old(dirs)[start..] == old(dirs)[start..start + 1] + old(dirs)[start + 1..];
      }
    }

    /** Moves the whole state out; the moved-from vectors are left empty. */
    method GetResult() returns (r: Result)
      modifies this
      ensures r == Result(old(files), old(dirs))
      ensures files == [] && dirs == []
    {
      r := Result(files, dirs);
      files, dirs := [], [];
    }
  }

  /**
    listDir: routes every entry of d to putDir or putFile. When d cannot be
    opened the iterator throws inside its task; the future is only waited on,
    never read, so the failure is dropped and the monitor is left as it was.
  */
  method ListDir(d: Dir, result: MonitorResult)
    modifies result
    ensures d.contents.Unreadable? ==> result.files == old(result.files) && result.dirs == old(result.dirs)
    ensures d.contents.Entries? ==>
      result.files == old(result.files) + FileNames(d.contents.entries) &&
      result.dirs == old(result.dirs) + SubDirs(d.contents.entries)
  {
    match d.contents
    case Unreadable =>
    case Entries(es) =>
      for i := 0 to |es|
        invariant result.files == old(result.files) + FileNames(es[..i])
        invariant result.dirs == old(result.dirs) + SubDirs(es[..i])
      {
        SplitStep(es, i);
        match es[i]
        case Sub(pth) =>
          result.PutDir(pth);
        case File(name) =>
          result.PutFile(name);
      }
      assert es[..|es|] == es;
  }

  /**
    What listDir tasks run in the order of ds append to the monitor: the
    file names and the sub-directories of each directory that can be opened,
    one directory after another.
  */
  function Listed(ds: seq<Dir>): Result
    decreases |ds|
  {
    if ds == [] then Result([], [])
    else
      var r := Listed(ds[..|ds| - 1]);
      match Expand(ds[|ds| - 1])
      case Error(_) => r
      case Ok(x) => Result(r.files + x.files, r.dirs + x.dirs)
  }

  lemma ListedSnoc(ds: seq<Dir>, d: Dir)
    ensures d.contents.Unreadable? ==> Listed(ds + [d]) == Listed(ds)
    ensures d.contents.Entries? ==>
      Listed(ds + [d]) == Result(Listed(ds).files + FileNames(d.contents.entries), Listed(ds).dirs + SubDirs(d.contents.entries))
  {
    assert (ds + [d])[..|ds|] == ds;
  }

  /**
    The listings of ds hold exactly the files reachable from ds, and at
    least one unit less pending work per directory.
  */
  lemma {:induction false} ListedAccount(ds: seq<Dir>)
    ensures Account(Listed(ds).files, Listed(ds).dirs) == FilesOf(ds)
    ensures SizeSum(Listed(ds).dirs) + |ds| <= SizeSum(ds)
    decreases |ds|
  {
    if ds != [] {
      var init, d := ds[..|ds| - 1], ds[|ds| - 1];
      assert ds == init + [d];
      ListedAccount(init);
      FilesOfSnoc(init, d);
      SizeSumSnoc(init, d);
      ListedSnoc(init, d);
      var r := Listed(init);
      ListDirStep(d, r.files, r.dirs, Listed(ds).files, Listed(ds).dirs);
    }
  }

  /**
    listAllFiles: seeds the monitor with the root and, while directories are
    pending, takes at most BatchSize of them and lists each one. Returns the
    drained state: every file reachable through readable directories, once
    each, and nothing pending.
  */
  method ListAllFiles(root: Dir) returns (r: Result)
    ensures r.dirs == []
    ensures multiset(r.files) == Files(root)
  {
    var result := new MonitorResult();
    result.PutDir(root);
    assert result.dirs == [] + [root] && result.files == [];
    FilesOfSnoc([], root);
    var empty := result.IsDirsEmpty();
    while !empty
      invariant empty <==> result.dirs == []
      invariant Account(result.files, result.dirs) == Files(root)
      decreases SizeSum(result.dirs)
    {
      var _ := Round(result);
      empty := result.IsDirsEmpty();
    }
    assert FilesOf([]) == multiset{};
    r := result.GetResult();
  }

  /**
    One pass of the while loop: getDirs(BatchSize), then one listDir task per
    directory taken. The batch is the back of dirs; its listDir calls, popped from the
    back of the batch, list its directories in their order in dirs, and what
    they find is appended behind the directories left pending.
  */
  method Round(result: MonitorResult) returns (taken: seq<Dir>)
    requires result.dirs != []
    modifies result
    ensures |taken| == if |old(result.dirs)| < BatchSize then |old(result.dirs)| else BatchSize
    ensures taken == Reverse(old(result.dirs)[|old(result.dirs)| - |taken|..])
    ensures result.files == old(result.files) + Listed(old(result.dirs)[|old(result.dirs)| - |taken|..]).files
    ensures result.dirs == old(result.dirs)[..|old(result.dirs)| - |taken|]
                         + Listed(old(result.dirs)[|old(result.dirs)| - |taken|..]).dirs
    ensures Account(result.files, result.dirs) == old(Account(result.files, result.dirs))
    ensures SizeSum(result.dirs) < old(SizeSum(result.dirs))
  {
    ghost var files0, before := result.files, result.dirs;
    taken := result.GetDirs(BatchSize);
    ghost var rest := result.dirs;
    Dispatch(taken, result);
    // the barrier over the futures waits for tasks that, here, have already run
    ReverseInvolutive(before[|before| - |taken|..]);
    RoundStep(files0, before, rest, taken, result.files, result.dirs);
  }

  /** A round of getDirs then the round's tasks keeps the files accounted for and shrinks the pending work. */
  lemma RoundStep(files: seq<string>, before: seq<Dir>, rest: seq<Dir>, dirsToDo: seq<Dir>,
                  files': seq<string>, dirs': seq<Dir>)
    requires 1 <= |dirsToDo| <= |before|
    requires rest == before[..|before| - |dirsToDo|]
    requires dirsToDo == Reverse(before[|before| - |dirsToDo|..])
    requires Account(files', dirs') == Account(files, rest) + FilesOf(dirsToDo)
    requires SizeSum(dirs') + |dirsToDo| <= SizeSum(rest) + SizeSum(dirsToDo)
    ensures Account(files', dirs') == Account(files, before)
    ensures SizeSum(dirs') < SizeSum(before)
  {
    var tail := before[|before| - |dirsToDo|..];
    assert rest + tail == before;
    TakenAccount(rest, tail);
  }

  /**
    Launches one listDir task per directory, taking them from the back of
    dirsToDo: the monitor gains what they list, in that order. Each task
    adds the files it reaches and at most its own work.
  */
  method Dispatch(dirsToDo: seq<Dir>, result: MonitorResult)
    modifies result
    ensures result.files == old(result.files) + Listed(Reverse(dirsToDo)).files
    ensures result.dirs == old(result.dirs) + Listed(Reverse(dirsToDo)).dirs
    ensures Account(result.files, result.dirs) == old(Account(result.files, result.dirs)) + FilesOf(dirsToDo)
    ensures SizeSum(result.dirs) + |dirsToDo| <= old(SizeSum(result.dirs)) + SizeSum(dirsToDo)
  {
    var todo := dirsToDo;
    while todo != []
      invariant |todo| <= |dirsToDo| && todo == dirsToDo[..|todo|]
      invariant result.files == old(result.files) + Listed(Reverse(dirsToDo[|todo|..])).files
      invariant result.dirs == old(result.dirs) + Listed(Reverse(dirsToDo[|todo|..])).dirs
      decreases |todo|
    {
      var d := todo[|todo| - 1];
      ghost var files0, dirs0 := result.files, result.dirs;
      todo := todo[..|todo| - 1];
      ListDir(d, result);
      ReverseSuffix(dirsToDo, |todo|);
      ListedStep(Reverse(dirsToDo[|todo| + 1..]), d, old(result.files), old(result.dirs),
                 files0, dirs0, result.files, result.dirs);
    }
    assert dirsToDo[0..] == dirsToDo;
    DispatchAccount(old(result.files), old(result.dirs), dirsToDo);
  }

  /** Appending the listings of a batch adds exactly its files, and at least one unit less work per directory. */
  lemma DispatchAccount(files: seq<string>, dirs: seq<Dir>, dirsToDo: seq<Dir>)
    ensures Account(files + Listed(Reverse(dirsToDo)).files, dirs + Listed(Reverse(dirsToDo)).dirs)
         == Account(files, dirs) + FilesOf(dirsToDo)
    ensures SizeSum(dirs + Listed(Reverse(dirsToDo)).dirs) + |dirsToDo| <= SizeSum(dirs) + SizeSum(dirsToDo)
  {
    var l := Listed(Reverse(dirsToDo));
    ListedAccount(Reverse(dirsToDo));
    BagOfReverse(dirsToDo, Files);
    SumOfReverse(dirsToDo, Size);
    AccountAppend(files, dirs, l.files, l.dirs);
    SizeSumAppend(dirs, l.dirs);
  }

  /** Running listDir on d after the calls for done appends d's listing. */
  lemma ListedStep(done: seq<Dir>, d: Dir, files0: seq<string>, dirs0: seq<Dir>,
                   files: seq<string>, dirs: seq<Dir>, files': seq<string>, dirs': seq<Dir>)
    requires files == files0 + Listed(done).files && dirs == dirs0 + Listed(done).dirs
    requires d.contents.Unreadable? ==> files' == files && dirs' == dirs
    requires d.contents.Entries? ==>
      files' == files + FileNames(d.contents.entries) && dirs' == dirs + SubDirs(d.contents.entries)
    ensures files' == files0 + Listed(done + [d]).files
    ensures dirs' == dirs0 + Listed(done + [d]).dirs
  {
    ListedSnoc(done, d);
    if d.contents.Entries? {
      var l, es := Listed(done), d.contents.entries;
      assert files0 + l.files + FileNames(es) == files0 + (l.files + FileNames(es));
      assert dirs0 + l.dirs + SubDirs(es) == dirs0 + (l.dirs + SubDirs(es));
    }
  }

  /** One listDir task adds exactly the files reachable from d and strictly less pending work than d. */
  lemma ListDirStep(d: Dir, files: seq<string>, dirs: seq<Dir>, files': seq<string>, dirs': seq<Dir>)
    requires d.contents.Unreadable? ==> files' == files && dirs' == dirs
    requires d.contents.Entries? ==>
      files' == files + FileNames(d.contents.entries) && dirs' == dirs + SubDirs(d.contents.entries)
    ensures Account(files', dirs') == Account(files, dirs) + Files(d)
    ensures SizeSum(dirs') < SizeSum(dirs) + Size(d)
  {
    ExpandAccount(d);
    if d.contents.Entries? {
      var es := d.contents.entries;
      FilesOfAppend(dirs, SubDirs(es));
      SizeSumAppend(dirs, SubDirs(es));
    }
  }
}
