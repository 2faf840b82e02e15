/**
  The directory tree that the listing examples walk. The real filesystem
  (directory_iterator, is_directory, filename) is replaced by a finite tree:
  a directory node stands for its path, and its contents are either the
  entries the iterator yields, in iteration order, or `Unreadable` when
  opening the iterator throws.
*/
module FileTree {
  import opened Wrappers
  import opened Seqs

  datatype Dir = Dir(path: string, contents: Contents)
  datatype Contents = Unreadable | Entries(entries: seq<Entry>)
  /** A file is listed by its file name, a directory by its own node. */
  datatype Entry = File(name: string) | Sub(dir: Dir)

  /** The `Result` struct: files and sub-directories found in one directory. */
  datatype Result = Result(files: seq<string>, dirs: seq<Dir>)

  // ---------------------------------------------------------------------
  // Measures over the tree

  /** Number of directory nodes in the tree below and including d. */
  function Size(d: Dir): nat
    decreases d
  {
    1 + match d.contents
        case Unreadable => 0
        case Entries(es) => SizeIn(es)
  }

  function SizeIn(es: seq<Entry>): nat
    decreases es
  {
    if es == [] then 0 else EntrySize(es[0]) + SizeIn(es[1..])
  }

  function EntrySize(e: Entry): nat
    decreases e
  {
    match e
    case File(_) => 0
    case Sub(s) => Size(s)
  }

  function SizeSum(ds: seq<Dir>): nat {
    SumOf(ds, Size)
  }

  // ---------------------------------------------------------------------
  // The files reachable from a directory through readable directories

  function Files(d: Dir): multiset<string>
    decreases d
  {
    match d.contents
    case Unreadable => multiset{}
    case Entries(es) => FilesIn(es)
  }

  function FilesIn(es: seq<Entry>): multiset<string>
    decreases es
  {
    if es == [] then multiset{} else EntryFiles(es[0]) + FilesIn(es[1..])
  }

  function EntryFiles(e: Entry): multiset<string>
    decreases e
  {
    match e
    case File(n) => multiset{n}
    case Sub(s) => Files(s)
  }

  function FilesOf(ds: seq<Dir>): multiset<string> {
    BagOf(ds, Files)
  }

  /** What a walk holds at some point: the files found and those still reachable from pending directories. */
  function Account(files: seq<string>, dirs: seq<Dir>): multiset<string> {
    multiset(files) + FilesOf(dirs)
  }

  // ---------------------------------------------------------------------
  // Directories that can all be opened

  predicate AllReadable(d: Dir)
    decreases d
  {
    match d.contents
    case Unreadable => false
    case Entries(es) => AllReadableIn(es)
  }

  predicate AllReadableIn(es: seq<Entry>)
    decreases es
  {
    es == [] || (EntryReadable(es[0]) && AllReadableIn(es[1..]))
  }

  predicate EntryReadable(e: Entry)
    decreases e
  {
    match e
    case File(_) => true
    case Sub(s) => AllReadable(s)
  }

  // ---------------------------------------------------------------------
  // listDir: splitting the entries of one directory

  /** File names of the entries, in iteration order. */
  function FileNames(es: seq<Entry>): seq<string> {
    if es == [] then []
    else (match es[0] case File(n) => [n] case Sub(_) => []) + FileNames(es[1..])
  }

  /** Sub-directories of the entries, in iteration order. */
  function SubDirs(es: seq<Entry>): seq<Dir> {
    if es == [] then []
    else (match es[0] case File(_) => [] case Sub(s) => [s]) + SubDirs(es[1..])
  }

  /** The collaborator `expand`: the split listing of d, or the failure to open it. */
  function Expand(d: Dir): Outcome<Result> {
    match d.contents
    case Unreadable => Error(d.path)
    case Entries(es) => Ok(Result(FileNames(es), SubDirs(es)))
  }

  /** Which entries are directories, in iteration order. */
  function Kinds(es: seq<Entry>): (k: seq<bool>)
    ensures |k| == |es|
    ensures forall i :: 0 <= i < |es| ==> k[i] == es[i].Sub?
  {
    if es == [] then [] else [es[0].Sub?] + Kinds(es[1..])
  }

  /** Rebuilds an iteration order from the kinds and the two split lists. */
  function Merge(kinds: seq<bool>, files: seq<string>, dirs: seq<Dir>): seq<Entry> {
    if kinds == [] then []
    else if kinds[0] then
      (if dirs == [] then [] else [Sub(dirs[0])] + Merge(kinds[1..], files, dirs[1..]))
    else
      (if files == [] then [] else [File(files[0])] + Merge(kinds[1..], files[1..], dirs))
  }

  // ---------------------------------------------------------------------
  // Lemmas

  lemma {:induction false} FileNamesAppend(a: seq<Entry>, b: seq<Entry>)
    ensures FileNames(a + b) == FileNames(a) + FileNames(b)
    decreases |a|
  {
    if a == [] {
      assert a + b == b;
    } else {
      assert (a + b)[1..] == a[1..] + b;
      FileNamesAppend(a[1..], b);
    }
  }

  lemma {:induction false} SubDirsAppend(a: seq<Entry>, b: seq<Entry>)
    ensures SubDirs(a + b) == SubDirs(a) + SubDirs(b)
    decreases |a|
  {
    if a == [] {
      assert a + b == b;
    } else {
      assert (a + b)[1..] == a[1..] + b;
      SubDirsAppend(a[1..], b);
    }
  }

  /** Splitting one more entry: a file extends the file names, a directory the sub-directories. */
  lemma SplitStep(es: seq<Entry>, i: int)
    requires 0 <= i < |es|
    ensures es[i].File? ==> FileNames(es[..i + 1]) == FileNames(es[..i]) + [es[i].name] && SubDirs(es[..i + 1]) == SubDirs(es[..i])
    ensures es[i].Sub? ==> FileNames(es[..i + 1]) == FileNames(es[..i]) && SubDirs(es[..i + 1]) == SubDirs(es[..i]) + [es[i].dir]
  {
    assert es[..i + 1] == es[..i] + [es[i]];
    FileNamesAppend(es[..i], [es[i]]);
    SubDirsAppend(es[..i], [es[i]]);
    assert [es[i]][1..] == [];
  }

  /** Splitting is exact and keeps order: merging the two lists by kind gives back the entries. */
  lemma {:induction false} SplitRoundTrip(es: seq<Entry>)
    ensures Merge(Kinds(es), FileNames(es), SubDirs(es)) == es
    decreases |es|
  {
    if es != [] {
      assert Kinds(es)[1..] == Kinds(es[1..]);
      SplitRoundTrip(es[1..]);
      match es[0]
      case File(n) =>
        assert FileNames(es) == [n] + FileNames(es[1..]);
        assert SubDirs(es) == SubDirs(es[1..]);
      case Sub(s) =>
        assert FileNames(es) == FileNames(es[1..]);
        assert SubDirs(es) == [s] + SubDirs(es[1..]);
    }
  }

  /** Every entry goes to exactly one side: the two lists together are as long as the listing. */
  lemma {:induction false} SplitCounts(es: seq<Entry>)
    ensures |FileNames(es)| + |SubDirs(es)| == |es|
    decreases |es|
  {
    if es != [] {
      SplitCounts(es[1..]);
    }
  }

  /** The split loses no file: the listed names plus what the sub-directories reach is what es reaches. */
  lemma {:induction false} SplitAccount(es: seq<Entry>)
    ensures Account(FileNames(es), SubDirs(es)) == FilesIn(es)
    ensures SizeSum(SubDirs(es)) == SizeIn(es)
    decreases |es|
  {
    if es != [] {
      SplitAccount(es[1..]);
      var names, rest := FileNames(es[1..]), SubDirs(es[1..]);
      assert FilesIn(es) == EntryFiles(es[0]) + FilesIn(es[1..]);
      assert SizeIn(es) == EntrySize(es[0]) + SizeIn(es[1..]);
      match es[0]
      case File(n) =>
        assert FileNames(es) == [n] + names;
        assert multiset([n] + names) == multiset{n} + multiset(names);
        assert SubDirs(es) == rest;
      case Sub(s) =>
        assert FileNames(es) == names;
        assert SubDirs(es) == [s] + rest;
        assert ([s] + rest)[1..] == rest;
        assert FilesOf([s] + rest) == Files(s) + FilesOf(rest);
        assert SizeSum([s] + rest) == Size(s) + SizeSum(rest);
    }
  }

  /** Expanding a directory accounts for exactly its reachable files and strictly shrinks the work. */
  lemma ExpandAccount(d: Dir)
    ensures Expand(d).Ok? ==> Account(Expand(d).value.files, Expand(d).value.dirs) == Files(d)
    ensures Expand(d).Ok? ==> SizeSum(Expand(d).value.dirs) < Size(d)
    ensures Expand(d).Error? <==> d.contents.Unreadable?
    ensures Expand(d).Error? ==> Files(d) == multiset{}
  {
    if d.contents.Entries? {
      SplitAccount(d.contents.entries);
    }
  }

  lemma {:induction false} SubDirsReadable(es: seq<Entry>)
    requires AllReadableIn(es)
    ensures forall s :: s in SubDirs(es) ==> AllReadable(s)
    decreases |es|
  {
    if es != [] {
      SubDirsReadable(es[1..]);
    }
  }

  /** A fully readable directory expands without failure into fully readable sub-directories. */
  lemma ExpandReadable(d: Dir)
    requires AllReadable(d)
    ensures Expand(d).Ok?
    ensures forall s :: s in Expand(d).value.dirs ==> AllReadable(s)
  {
    SubDirsReadable(d.contents.entries);
  }

  lemma {:induction false} FilesOfAppend(a: seq<Dir>, b: seq<Dir>)
    ensures FilesOf(a + b) == FilesOf(a) + FilesOf(b)
  {
    BagOfAppend(a, b, Files);
  }

  lemma {:induction false} SizeSumAppend(a: seq<Dir>, b: seq<Dir>)
    ensures SizeSum(a + b) == SizeSum(a) + SizeSum(b)
  {
    SumOfAppend(a, b, Size);
  }

  /** The account of two walks' states put end to end is the sum of their accounts. */
  lemma AccountAppend(f1: seq<string>, d1: seq<Dir>, f2: seq<string>, d2: seq<Dir>)
    ensures Account(f1 + f2, d1 + d2) == Account(f1, d1) + Account(f2, d2)
  {
    FilesOfAppend(d1, d2);
    var a, b, c, d := multiset(f1), multiset(f2), FilesOf(d1), FilesOf(d2);
    assert multiset(f1 + f2) == a + b;
    assert (a + b) + (c + d) == (a + c) + (b + d) by {
      forall x ensures ((a + b) + (c + d))[x] == ((a + c) + (b + d))[x] {
      }
    }
  }

  lemma FilesOfSnoc(ds: seq<Dir>, d: Dir)
    ensures FilesOf(ds + [d]) == FilesOf(ds) + Files(d)
  {
    FilesOfAppend(ds, [d]);
    assert BagOf([d], Files) == Files(d) + BagOf([], Files);
  }

  lemma SizeSumSnoc(ds: seq<Dir>, d: Dir)
    ensures SizeSum(ds + [d]) == SizeSum(ds) + Size(d)
  {
    SizeSumAppend(ds, [d]);
    assert SumOf([d], Size) == Size(d) + SumOf([], Size);
  }

  /** Taking a tail off the pending directories and reversing it keeps the work accounted for. */
  lemma TakenAccount(rest: seq<Dir>, tail: seq<Dir>)
    ensures FilesOf(rest) + FilesOf(Reverse(tail)) == FilesOf(rest + tail)
    ensures SizeSum(rest) + SizeSum(Reverse(tail)) == SizeSum(rest + tail)
  {
    FilesOfAppend(rest, tail);
    SizeSumAppend(rest, tail);
    BagOfReverse(tail, Files);
    SumOfReverse(tail, Size);
  }
}
