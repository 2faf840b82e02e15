/**
  The bounded directory walk of concurency5/main.cpp. `dirsToDo` is a
  stack: each round pops at most MaxTasks directories from its back and
  launches one listDir task for each; the futures are then read from the
  back, so in reverse dispatch order, appending each result's files to
  `files` and its sub-directories to `dirsToDo`. A failing task rethrows at
  get(), which leaves the whole collecting loop: the results not read yet
  in that round are abandoned, and the walk goes on with what dirsToDo holds.
*/
module BoundedWorklist {
  import opened Wrappers
  import opened Seqs
  import opened FileTree

  /** At most this many tasks per round. */
  const MaxTasks := 4

  /** listDir: one pass over the entries, pushing each to `dirs` or `files`. */
  method ListDir(d: Dir) returns (r: Outcome<Result>)
    ensures r == Expand(d)
  {
    match d.contents
    case Unreadable =>
      r := Error(d.path);
    case Entries(es) =>
      var result := Result([], []);
      for i := 0 to |es|
        invariant result == Result(FileNames(es[..i]), SubDirs(es[..i]))
      {
        SplitStep(es, i);
        match es[i]
        case Sub(s) =>
          result := result.(dirs := result.dirs + [s]);
        case File(n) =>
          result := result.(files := result.files + [n]);
      }
      assert es[..|es|] == es;
      r := Ok(result);
  }

  // ---------------------------------------------------------------------
  // Specification of one round

  /** The directories one round dispatches, in dispatch order: the last min(MaxTasks, |dirsToDo|), from the back. */
  function Batch(dirsToDo: seq<Dir>): (ds: seq<Dir>)
    ensures |ds| == if |dirsToDo| < MaxTasks then |dirsToDo| else MaxTasks
    ensures dirsToDo[..|dirsToDo| - |ds|] + Reverse(ds) == dirsToDo
  {
    var k := if |dirsToDo| < MaxTasks then |dirsToDo| else MaxTasks;
    var ds := Reverse(dirsToDo[|dirsToDo| - k..]);
    assert Reverse(ds) == dirsToDo[|dirsToDo| - k..];
    ds
  }

  /** The futures of a round, in dispatch order. */
  function ExpandAll(ds: seq<Dir>): (fs: seq<Outcome<Result>>)
    ensures |fs| == |ds|
    ensures forall i :: 0 <= i < |ds| ==> fs[i] == Expand(ds[i])
  {
    if ds == [] then [] else [Expand(ds[0])] + ExpandAll(ds[1..])
  }

  /**
    The collecting loop from `files` and `dirsToDo`: futures are taken from
    the back; a failure ends the round with what was collected so far.
  */
  function Collect(futures: seq<Outcome<Result>>, files: seq<string>, dirsToDo: seq<Dir>): (seq<string>, seq<Dir>)
    decreases |futures|
  {
    if futures == [] then (files, dirsToDo)
    else match futures[|futures| - 1]
      case Error(_) => (files, dirsToDo)
      case Ok(r) => Collect(futures[..|futures| - 1], files + r.files, dirsToDo + r.dirs)
  }

  predicate NoFailure(futures: seq<Outcome<Result>>) {
    forall i :: 0 <= i < |futures| ==> futures[i].Ok?
  }

  /** Files a future still holds: those listed plus those reachable from its sub-directories. */
  function HeldFiles(f: Outcome<Result>): multiset<string> {
    match f
    case Error(_) => multiset{}
    case Ok(r) => Account(r.files, r.dirs)
  }

  function HeldSize(f: Outcome<Result>): nat {
    match f
    case Error(_) => 0
    case Ok(r) => SizeSum(r.dirs)
  }

  predicate HeldReadable(f: Outcome<Result>) {
    f.Ok? && forall s :: s in f.value.dirs ==> AllReadable(s)
  }

  /** Results in the order given, concatenated; failures contribute nothing. */
  function Gathered(futures: seq<Outcome<Result>>): Result {
    if futures == [] then Result([], [])
    else
      var g := Gathered(futures[1..]);
      match futures[0]
      case Error(_) => g
      case Ok(r) => Result(r.files + g.files, r.dirs + g.dirs)
  }

  // ---------------------------------------------------------------------
  // The walk

  /**
    main: walks from root with at most MaxTasks tasks per round. Only files
    reachable from root are reported, each at most once; when every
    directory can be opened, each reachable file is reported exactly once.
  */
  method ListAllFiles(root: Dir) returns (files: seq<string>)
    ensures multiset(files) <= Files(root)
    ensures AllReadable(root) ==> multiset(files) == Files(root)
  {
    var dirsToDo := [root];
    files := [];
    FilesOfSnoc([], root);
    assert [] + [root] == [root];
    while dirsToDo != []
      invariant Account(files, dirsToDo) <= Files(root)
      invariant AllReadable(root) ==> Account(files, dirsToDo) == Files(root)
      invariant AllReadable(root) ==> forall d :: d in dirsToDo ==> AllReadable(d)
      decreases SizeSum(dirsToDo)
    {
      ghost var before, files0 := dirsToDo, files;
      ghost var batch := Batch(dirsToDo);
      files, dirsToDo := Round(files, dirsToDo);
      RoundAccount(before, before[..|before| - |batch|], batch, files0, files, dirsToDo, root);
    }
  }

  /**
    One pass of the outer loop: dispatches Batch(dirsToDo), popping each
    from the back, then reads the futures from the back until one fails.
  */
  method Round(files: seq<string>, dirsToDo: seq<Dir>) returns (files': seq<string>, dirsToDo': seq<Dir>)
    ensures (files', dirsToDo') ==
      Collect(ExpandAll(Batch(dirsToDo)), files, dirsToDo[..|dirsToDo| - |Batch(dirsToDo)|])
  {
    files', dirsToDo' := files, dirsToDo;
    var futures: seq<Outcome<Result>> := [];
    ghost var dispatched: seq<Dir> := [];
    var i := 0;
    while i < MaxTasks && dirsToDo' != []
      invariant 0 <= i <= MaxTasks && i == |dispatched|
      invariant dirsToDo' + Reverse(dispatched) == dirsToDo
      invariant futures == ExpandAll(dispatched)
      decreases MaxTasks - i
    {
      var d := dirsToDo'[|dirsToDo'| - 1];
      var ftr := ListDir(d);
      DispatchStep(dirsToDo', dispatched, dirsToDo);
      ExpandAllSnoc(dispatched, d);
      dirsToDo' := dirsToDo'[..|dirsToDo'| - 1];
      futures := futures + [ftr];
      dispatched := dispatched + [d];
      i := i + 1;
    }
    BatchIsDispatched(dirsToDo, dirsToDo', dispatched);
    ghost var target := Collect(futures, files', dirsToDo');
    // the barrier: read the futures from the back
    while futures != []
      invariant Collect(futures, files', dirsToDo') == target
      decreases |futures|
    {
      var ftr := futures[|futures| - 1];
      futures := futures[..|futures| - 1];
      match ftr
      case Error(_) =>
        // get() rethrows: the catch handlers end the round here
        break;
      case Ok(result) =>
        files' := files' + result.files;
        dirsToDo' := dirsToDo' + result.dirs;
    }
  }

  /** When the dispatch loop stops, it has dispatched exactly Batch(dirsToDo). */
  lemma BatchIsDispatched(dirsToDo: seq<Dir>, rest: seq<Dir>, dispatched: seq<Dir>)
    requires rest + Reverse(dispatched) == dirsToDo
    requires |dispatched| == MaxTasks || rest == []
    requires |dispatched| <= MaxTasks
    ensures dispatched == Batch(dirsToDo)
    ensures rest == dirsToDo[..|dirsToDo| - |Batch(dirsToDo)|]
  {
    var b := Batch(dirsToDo);
    assert |b| == |dispatched|;
    assert rest == dirsToDo[..|rest|];
    assert Reverse(dispatched) == dirsToDo[|rest|..];
    assert Reverse(b) == dirsToDo[|rest|..];
    ReverseInjective(b, dispatched);
  }

  /** Popping the back of dirsToDo moves it to the end of the dispatched directories. */
  lemma DispatchStep(dirsToDo: seq<Dir>, dispatched: seq<Dir>, before: seq<Dir>)
    requires dirsToDo != [] && dirsToDo + Reverse(dispatched) == before
    ensures dirsToDo[..|dirsToDo| - 1] + Reverse(dispatched + [dirsToDo[|dirsToDo| - 1]]) == before
  {
    var d := dirsToDo[|dirsToDo| - 1];
    assert (dispatched + [d])[..|dispatched|] == dispatched;
    assert Reverse(dispatched + [d]) == [d] + Reverse(dispatched);
    assert dirsToDo == dirsToDo[..|dirsToDo| - 1] + [d];
  }

  lemma ExpandAllSnoc(ds: seq<Dir>, d: Dir)
    ensures ExpandAll(ds + [d]) == ExpandAll(ds) + [Expand(d)]
  {
    var l, r := ExpandAll(ds + [d]), ExpandAll(ds) + [Expand(d)];
    assert |l| == |r|;
    forall i | 0 <= i < |l| ensures l[i] == r[i] {
      assert (ds + [d])[i] == if i < |ds| then ds[i] else d;
    }
  }

  /** What one round does to the walk's invariants. */
  lemma RoundAccount(before: seq<Dir>, rest: seq<Dir>, dispatched: seq<Dir>,
                     files0: seq<string>, files: seq<string>, dirsToDo: seq<Dir>, root: Dir)
    requires rest + Reverse(dispatched) == before
    requires |dispatched| > 0
    requires (files, dirsToDo) == Collect(ExpandAll(dispatched), files0, rest)
    requires Account(files0, before) <= Files(root)
    requires AllReadable(root) ==> Account(files0, before) == Files(root)
    requires AllReadable(root) ==> forall d :: d in before ==> AllReadable(d)
    ensures Account(files, dirsToDo) <= Files(root)
    ensures AllReadable(root) ==> Account(files, dirsToDo) == Files(root)
    ensures AllReadable(root) ==> forall d :: d in dirsToDo ==> AllReadable(d)
    ensures SizeSum(dirsToDo) < SizeSum(before)
  {
    var fs := ExpandAll(dispatched);
    FilesOfAppend(rest, Reverse(dispatched));
    BagOfReverse(dispatched, Files);
    SizeSumAppend(rest, Reverse(dispatched));
    SumOfReverse(dispatched, Size);
    ExpandAllAccount(dispatched);
    CollectAccount(fs, files0, rest);
    CollectSize(fs, files0, rest);
    assert Account(files0, rest) + BagOf(fs, HeldFiles) == Account(files0, before);
    if AllReadable(root) {
      RoundReadable(before, rest, dispatched, files0);
    }
  }

  lemma RoundReadable(before: seq<Dir>, rest: seq<Dir>, dispatched: seq<Dir>, files0: seq<string>)
    requires rest + Reverse(dispatched) == before
    requires forall d :: d in before ==> AllReadable(d)
    ensures NoFailure(ExpandAll(dispatched))
    ensures forall d :: d in Collect(ExpandAll(dispatched), files0, rest).1 ==> AllReadable(d)
  {
    forall d | d in dispatched ensures AllReadable(d) {
      var k :| 0 <= k < |dispatched| && dispatched[k] == d;
      assert Reverse(dispatched)[|dispatched| - 1 - k] == d;
      assert before[|rest| + (|dispatched| - 1 - k)] == d;
    }
    ExpandAllReadable(dispatched);
    CollectReadable(ExpandAll(dispatched), files0, rest);
  }

  // ---------------------------------------------------------------------
  // Lemmas


  /** Dispatching expands each directory once: the futures hold exactly their files and less work. */
  lemma {:induction false} ExpandAllAccount(ds: seq<Dir>)
    ensures BagOf(ExpandAll(ds), HeldFiles) == FilesOf(ds)
    ensures SumOf(ExpandAll(ds), HeldSize) + |ds| <= SizeSum(ds)
    decreases |ds|
  {
    if ds != [] {
      ExpandAllAccount(ds[1..]);
      ExpandAccount(ds[0]);
      assert ExpandAll(ds)[1..] == ExpandAll(ds[1..]);
    }
  }

  lemma {:induction false} ExpandAllReadable(ds: seq<Dir>)
    requires forall d :: d in ds ==> AllReadable(d)
    ensures forall i :: 0 <= i < |ds| ==> HeldReadable(ExpandAll(ds)[i])
  {
    forall i | 0 <= i < |ds|
      ensures HeldReadable(ExpandAll(ds)[i])
    {
      ExpandReadable(ds[i]);
    }
  }

  /** Collecting never invents a file; with no failure it loses none of what the futures hold. */
  lemma CollectAccount(fs: seq<Outcome<Result>>, files: seq<string>, dirs: seq<Dir>)
    ensures Account(Collect(fs, files, dirs).0, Collect(fs, files, dirs).1) <= Account(files, dirs) + BagOf(fs, HeldFiles)
    ensures NoFailure(fs) ==>
      Account(Collect(fs, files, dirs).0, Collect(fs, files, dirs).1) == Account(files, dirs) + BagOf(fs, HeldFiles)
  {
    var lost := CollectLoss(fs, files, dirs);
    var c := Collect(fs, files, dirs);
    assert Account(c.0, c.1) <= Account(c.0, c.1) + lost;
  }

  /** The last future: what it holds, split off the rest. */
  lemma BagOfLast(fs: seq<Outcome<Result>>)
    requires fs != []
    ensures BagOf(fs, HeldFiles) == BagOf(fs[..|fs| - 1], HeldFiles) + HeldFiles(fs[|fs| - 1])
  {
    var init, last := fs[..|fs| - 1], fs[|fs| - 1];
    assert fs == init + [last];
    BagOfAppend(init, [last], HeldFiles);
    assert BagOf([last], HeldFiles) == HeldFiles(last) + BagOf([], HeldFiles);
  }

  /** What collecting keeps plus what it abandons is what the futures and the walk held; nothing is abandoned without a failure. */
  lemma {:induction false} CollectLoss(fs: seq<Outcome<Result>>, files: seq<string>, dirs: seq<Dir>)
    returns (lost: multiset<string>)
    ensures Account(Collect(fs, files, dirs).0, Collect(fs, files, dirs).1) + lost == Account(files, dirs) + BagOf(fs, HeldFiles)
    ensures NoFailure(fs) ==> lost == multiset{}
    decreases |fs|
  {
    if fs == [] {
      lost := multiset{};
    } else {
      var init, last := fs[..|fs| - 1], fs[|fs| - 1];
      BagOfLast(fs);
      match last
      case Error(_) =>
        lost := BagOf(fs, HeldFiles);
        assert !NoFailure(fs) by {
          assert !fs[|fs| - 1].Ok?;
        }
      case Ok(r) =>
        var files', dirs' := files + r.files, dirs + r.dirs;
        lost := CollectLoss(init, files', dirs');
        AccountAppend(files, dirs, r.files, r.dirs);
        Regroup(Account(files, dirs), Account(r.files, r.dirs), BagOf(init, HeldFiles));
        assert NoFailure(fs) ==> NoFailure(init) by {
          if NoFailure(fs) {
            forall i | 0 <= i < |init| ensures init[i].Ok? {
              assert init[i] == fs[i];
            }
          }
        }
    }
  }

  lemma Regroup(a: multiset<string>, b: multiset<string>, c: multiset<string>)
    ensures (a + b) + c == a + (c + b)
  {
    forall x ensures ((a + b) + c)[x] == (a + (c + b))[x] {
    }
  }

  /** Collecting adds no more pending work than the futures hold. */
  lemma {:induction false} CollectSize(fs: seq<Outcome<Result>>, files: seq<string>, dirs: seq<Dir>)
    ensures SizeSum(Collect(fs, files, dirs).1) <= SizeSum(dirs) + SumOf(fs, HeldSize)
    decreases |fs|
  {
    if fs != [] {
      var init, last := fs[..|fs| - 1], fs[|fs| - 1];
      assert fs == init + [last];
      SumOfAppend(init, [last], HeldSize);
      assert SumOf([last], HeldSize) == HeldSize(last) + SumOf([], HeldSize);
      if last.Ok? {
        var r := last.value;
        CollectSize(init, files + r.files, dirs + r.dirs);
        SizeSumAppend(dirs, r.dirs);
      }
    }
  }

  /** Collecting readable results into readable pending directories keeps them readable. */
  lemma {:induction false} CollectReadable(fs: seq<Outcome<Result>>, files: seq<string>, dirs: seq<Dir>)
    requires forall i :: 0 <= i < |fs| ==> HeldReadable(fs[i])
    requires forall d :: d in dirs ==> AllReadable(d)
    ensures NoFailure(fs)
    ensures forall d :: d in Collect(fs, files, dirs).1 ==> AllReadable(d)
    decreases |fs|
  {
    if fs != [] {
      var init, last := fs[..|fs| - 1], fs[|fs| - 1];
      assert HeldReadable(fs[|fs| - 1]);
      CollectReadable(init, files + last.value.files, dirs + last.value.dirs);
    }
  }

  /** Futures are read back to front: with no failure, the round appends the results in reverse dispatch order. */
  lemma {:induction false} CollectInReverse(fs: seq<Outcome<Result>>, files: seq<string>, dirs: seq<Dir>)
    requires NoFailure(fs)
    ensures Collect(fs, files, dirs) == (files + Gathered(Reverse(fs)).files, dirs + Gathered(Reverse(fs)).dirs)
    decreases |fs|
  {
    if fs == [] {
      assert Reverse(fs) == [] && files + [] == files && dirs + [] == dirs;
    } else {
      var init, last := fs[..|fs| - 1], fs[|fs| - 1];
      assert Reverse(fs) == [last] + Reverse(init);
      assert ([last] + Reverse(init))[1..] == Reverse(init);
      assert NoFailure(init) by {
        forall i | 0 <= i < |init| ensures init[i].Ok? {
          assert init[i] == fs[i];
        }
      }
      assert last.Ok?;
      CollectInReverse(init, files + last.value.files, dirs + last.value.dirs);
      var g := Gathered(Reverse(init));
      assert files + last.value.files + g.files == files + (last.value.files + g.files);
      assert dirs + last.value.dirs + g.dirs == dirs + (last.value.dirs + g.dirs);
    }
  }

  /**
    A failing future ends the round: the futures dispatched after it are
    collected, the ones dispatched before it are abandoned.
  */
  lemma {:induction false} CollectStopsAtFailure(early: seq<Outcome<Result>>, what: string, late: seq<Outcome<Result>>,
                                                  files: seq<string>, dirs: seq<Dir>)
    requires NoFailure(late)
    ensures Collect(early + [Error(what)] + late, files, dirs) == Collect(late, files, dirs)
    decreases |late|
  {
    var fs := early + [Error(what)] + late;
    if late == [] {
      assert fs == early + [Error(what)];
    } else {
      var init, last := late[..|late| - 1], late[|late| - 1];
      assert fs[..|fs| - 1] == early + [Error(what)] + init;
      assert fs[|fs| - 1] == last;
      assert NoFailure(init) by {
        forall i | 0 <= i < |init| ensures init[i].Ok? {
          assert init[i] == late[i];
        }
      }
      assert last.Ok?;
      CollectStopsAtFailure(early, what, init, files + last.value.files, dirs + last.value.dirs);
    }
  }
}
