/**
  The recursive directory listing of concurency4/main.cpp (listDirectory).
  Each call emits a header line for its directory, then the directory's file
  names in iteration order, then the whole listing of every sub-directory in
  iteration order. The sub-directory listings are computed by tasks launched
  during the iteration and read afterwards in launch order; a directory that
  cannot be opened throws, and the exception travels up through every get().
*/
module RecursiveListing {
  import opened Wrappers
  import opened FileTree

  /** The line that opens a directory's listing. */
  function Header(dir: string): (h: string)
    ensures |h| == |dir| + 7
    ensures h[..3] == "\n> " && h[|h| - 4..] == ":\n\t "
    ensures h[3..|h| - 4] == dir
  {
    "\n> " + dir + ":\n\t "
  }

  // ---------------------------------------------------------------------
  // Specification

  function Listing(d: Dir): Outcome<seq<string>>
    decreases d
  {
    match d.contents
    case Unreadable => Error(d.path)
    case Entries(es) => Join([Header(d.path)] + FileNames(es), SubListings(es))
  }

  /** The futures launched for the sub-directories among es, in iteration order. */
  function SubListings(es: seq<Entry>): seq<Outcome<seq<string>>>
    decreases es
  {
    if es == [] then [] else EntryListing(es[0]) + SubListings(es[1..])
  }

  function EntryListing(e: Entry): seq<Outcome<seq<string>>>
    decreases e
  {
    match e
    case File(_) => []
    case Sub(s) => [Listing(s)]
  }

  /** The for_each over the futures: append each listing whole; the first failure propagates. */
  function Join(listing: seq<string>, futures: seq<Outcome<seq<string>>>): Outcome<seq<string>>
    decreases |futures|
  {
    if futures == [] then Ok(listing)
    else match futures[0]
      case Error(e) => Error(e)
      case Ok(l) => Join(listing + l, futures[1..])
  }

  predicate AllOk(futures: seq<Outcome<seq<string>>>) {
    forall i :: 0 <= i < |futures| ==> futures[i].Ok?
  }

  /** The successful listings, concatenated in order. */
  function Flatten(futures: seq<Outcome<seq<string>>>): seq<string> {
    if futures == [] then []
    else (match futures[0] case Ok(l) => l case Error(_) => []) + Flatten(futures[1..])
  }

  /** One header for every directory reachable from d. */
  function Headers(d: Dir): multiset<string>
    decreases d
  {
    match d.contents
    case Unreadable => multiset{}
    case Entries(es) => multiset{Header(d.path)} + HeadersIn(es)
  }

  function HeadersIn(es: seq<Entry>): multiset<string>
    decreases es
  {
    if es == [] then multiset{} else EntryHeaders(es[0]) + HeadersIn(es[1..])
  }

  function EntryHeaders(e: Entry): multiset<string>
    decreases e
  {
    match e
    case File(_) => multiset{}
    case Sub(s) => Headers(s)
  }

  // ---------------------------------------------------------------------
  // The listing, built step by step

  method ListDirectory(d: Dir) returns (r: Outcome<seq<string>>)
    ensures r == Listing(d)
    decreases d
  {
    match d.contents
    case Unreadable =>
      // the directory_iterator constructor throws
      r := Error(d.path);
    case Entries(es) =>
      var listing := [Header(d.path)];
      var futures: seq<Outcome<seq<string>>> := [];
      for i := 0 to |es|
        invariant listing == [Header(d.path)] + FileNames(es[..i])
        invariant futures == SubListings(es[..i])
      {
        SplitStep(es, i);
        SubListingsStep(es, i);
        match es[i]
        case Sub(s) =>
          var ftr := ListDirectory(s);
          futures := futures + [ftr];
        case File(name) =>
          listing := listing + [name];
      }
      assert es[..|es|] == es;
      ghost var outcome := Join(listing, futures);
      var j := 0;
      while j < |futures|
        invariant 0 <= j <= |futures|
        invariant Join(listing, futures[j..]) == outcome
      {
        assert futures[j..][1..] == futures[j + 1..];
        match futures[j]
        case Error(e) =>
          return Error(e);
        case Ok(lst) =>
          listing := listing + lst;
        j := j + 1;
      }
      r := Ok(listing);
  }

  // ---------------------------------------------------------------------
  // Lemmas

  lemma {:induction false} SubListingsAppend(a: seq<Entry>, b: seq<Entry>)
    ensures SubListings(a + b) == SubListings(a) + SubListings(b)
    decreases |a|
  {
    if a == [] {
      assert a + b == b;
    } else {
      assert (a + b)[1..] == a[1..] + b;
      SubListingsAppend(a[1..], b);
    }
  }

  /** One more entry: a directory adds the future of its listing, a file adds none. */
  lemma SubListingsStep(es: seq<Entry>, i: int)
    requires 0 <= i < |es|
    ensures es[i].File? ==> SubListings(es[..i + 1]) == SubListings(es[..i])
    ensures es[i].Sub? ==> SubListings(es[..i + 1]) == SubListings(es[..i]) + [Listing(es[i].dir)]
  {
    assert es[..i + 1] == es[..i] + [es[i]];
    SubListingsAppend(es[..i], [es[i]]);
    assert SubListings([es[i]]) == EntryListing(es[i]) + SubListings([]);
  }

  /** Joining succeeds exactly when no future failed, and then appends every listing whole, in order. */
  lemma {:induction false} JoinAppendsWhole(listing: seq<string>, futures: seq<Outcome<seq<string>>>)
    ensures Join(listing, futures).Ok? <==> AllOk(futures)
    ensures AllOk(futures) ==> Join(listing, futures) == Ok(listing + Flatten(futures))
    decreases |futures|
  {
    if futures == [] {
      assert listing + [] == listing;
    } else {
      var rest := futures[1..];
      assert AllOk(futures) <==> futures[0].Ok? && AllOk(rest) by {
        assert forall i :: 0 < i < |futures| ==> futures[i] == rest[i - 1];
      }
      if futures[0].Ok? {
        var l := futures[0].value;
        JoinAppendsWhole(listing + l, rest);
        assert listing + l + Flatten(rest) == listing + (l + Flatten(rest));
      }
    }
  }

  lemma FlattenAppend(a: seq<Outcome<seq<string>>>, b: seq<Outcome<seq<string>>>)
    ensures Flatten(a + b) == Flatten(a) + Flatten(b)
    ensures AllOk(a + b) <==> AllOk(a) && AllOk(b)
  {
    FlattenConcat(a, b);
    AllOkAppend(a, b);
  }

  lemma {:induction false} FlattenConcat(a: seq<Outcome<seq<string>>>, b: seq<Outcome<seq<string>>>)
    ensures Flatten(a + b) == Flatten(a) + Flatten(b)
    decreases |a|
  {
    if a == [] {
      assert a + b == b;
    } else {
      assert (a + b)[1..] == a[1..] + b;
      FlattenConcat(a[1..], b);
    }
  }

  lemma AllOkAppend(a: seq<Outcome<seq<string>>>, b: seq<Outcome<seq<string>>>)
    ensures AllOk(a + b) <==> AllOk(a) && AllOk(b)
  {
    if AllOk(a + b) {
      assert forall i :: 0 <= i < |a| ==> a[i] == (a + b)[i];
      assert forall i :: 0 <= i < |b| ==> b[i] == (a + b)[|a| + i];
    }
  }

  /** The listing of d succeeds exactly when every directory below it can be opened. */
  lemma {:induction false} ListingSucceeds(d: Dir)
    ensures Listing(d).Ok? <==> AllReadable(d)
    decreases d
  {
    match d.contents
    case Unreadable =>
    case Entries(es) =>
      JoinAppendsWhole([Header(d.path)] + FileNames(es), SubListings(es));
      SubListingsSucceed(es);
  }

  lemma {:induction false} SubListingsSucceed(es: seq<Entry>)
    ensures AllOk(SubListings(es)) <==> AllReadableIn(es)
    decreases es
  {
    if es != [] {
      EntryListingSucceeds(es[0]);
      SubListingsSucceed(es[1..]);
      FlattenAppend(EntryListing(es[0]), SubListings(es[1..]));
    }
  }

  lemma {:induction false} EntryListingSucceeds(e: Entry)
    ensures AllOk(EntryListing(e)) <==> EntryReadable(e)
    decreases e
  {
    if e.Sub? {
      ListingSucceeds(e.dir);
      assert EntryListing(e) == [Listing(e.dir)];
      assert AllOk(EntryListing(e)) ==> EntryListing(e)[0].Ok?;
    }
  }

  /** A successful listing holds one header per reachable directory and every reachable file once, and nothing else. */
  lemma {:induction false} ListingContents(d: Dir)
    requires Listing(d).Ok?
    ensures multiset(Listing(d).value) == Headers(d) + Files(d)
    decreases d
  {
    var es := d.contents.entries;
    var head := [Header(d.path)] + FileNames(es);
    var flat := Flatten(SubListings(es));
    JoinAppendsWhole(head, SubListings(es));
    SubListingsContents(es);
    assert Listing(d).value == head + flat;
    BagShuffle(multiset{Header(d.path)}, multiset(FileNames(es)), multiset(flat), HeadersIn(es), FilesIn(es));
  }

  lemma {:induction false} SubListingsContents(es: seq<Entry>)
    requires AllOk(SubListings(es))
    ensures multiset(Flatten(SubListings(es))) + multiset(FileNames(es)) == HeadersIn(es) + FilesIn(es)
    decreases es
  {
    if es != [] {
      var e, rest := es[0], es[1..];
      assert SubListings(es) == EntryListing(e) + SubListings(rest);
      FlattenAppend(EntryListing(e), SubListings(rest));
      SubListingsContents(rest);
      EntryListingContents(e);
      assert es == [e] + rest;
      FileNamesAppend([e], rest);
      SplitBag(multiset(Flatten(EntryListing(e))), multiset(Flatten(SubListings(rest))),
               multiset(FileNames([e])), multiset(FileNames(rest)),
               EntryHeaders(e), HeadersIn(rest), EntryFiles(e), FilesIn(rest));
    }
  }

  lemma {:induction false} EntryListingContents(e: Entry)
    requires AllOk(EntryListing(e))
    ensures multiset(Flatten(EntryListing(e))) + multiset(FileNames([e])) == EntryHeaders(e) + EntryFiles(e)
    decreases e
  {
    match e
    case File(n) =>
      assert FileNames([e]) == [n] + FileNames([]);
    case Sub(s) =>
      assert EntryListing(e) == [Listing(s)];
      assert EntryListing(e)[0].Ok?;
      var l := Listing(s).value;
      ListingContents(s);
      assert Flatten([Listing(s)]) == l by {
        assert Flatten([Listing(s)]) == l + Flatten([]);
      }
      assert FileNames([e]) == [] by {
        assert FileNames([e]) == [] + FileNames([]);
      }
      assert multiset(l) + multiset([]) == multiset(l);
  }

  lemma BagShuffle(h: multiset<string>, f: multiset<string>, rest: multiset<string>,
                   hs: multiset<string>, fs: multiset<string>)
    requires rest + f == hs + fs
    ensures (h + f) + rest == (h + hs) + fs
  {
    forall x ensures ((h + f) + rest)[x] == ((h + hs) + fs)[x] {
      assert (rest + f)[x] == (hs + fs)[x];
    }
  }

  lemma SplitBag(a: multiset<string>, b: multiset<string>, c: multiset<string>, d: multiset<string>,
                 h1: multiset<string>, h2: multiset<string>, f1: multiset<string>, f2: multiset<string>)
    requires a + c == h1 + f1 && b + d == h2 + f2
    ensures (a + b) + (c + d) == (h1 + h2) + (f1 + f2)
  {
    forall x ensures ((a + b) + (c + d))[x] == ((h1 + h2) + (f1 + f2))[x] {
      assert (a + c)[x] == (h1 + f1)[x] && (b + d)[x] == (h2 + f2)[x];
    }
  }

  /** The listing starts with the header, followed by the directory's own file names. */
  lemma ListingStartsWithHeader(d: Dir)
    requires Listing(d).Ok?
    ensures |Listing(d).value| >= 1 && Listing(d).value[0] == Header(d.path)
    ensures var es := d.contents.entries;
      |Listing(d).value| >= 1 + |FileNames(es)| && Listing(d).value[1..1 + |FileNames(es)|] == FileNames(es)
  {
    var es := d.contents.entries;
    var head := [Header(d.path)] + FileNames(es);
    JoinAppendsWhole(head, SubListings(es));
    assert Listing(d).value == head + Flatten(SubListings(es));
  }

  /** The listing has one line per reachable directory plus one per reachable file. */
  lemma ListingLength(d: Dir)
    requires Listing(d).Ok?
    ensures |Listing(d).value| == Size(d) + |Files(d)|
  {
    ListingSucceeds(d);
    ListingContents(d);
    HeadersCount(d);
    var l := Listing(d).value;
    assert |multiset(l)| == |l|;
  }

  lemma {:induction false} HeadersCount(d: Dir)
    requires AllReadable(d)
    ensures |Headers(d)| == Size(d)
    decreases d
  {
    HeadersInCount(d.contents.entries);
  }

  lemma {:induction false} HeadersInCount(es: seq<Entry>)
    requires AllReadableIn(es)
    ensures |HeadersIn(es)| == SizeIn(es)
    decreases es
  {
    if es != [] {
      EntryHeadersCount(es[0]);
      HeadersInCount(es[1..]);
    }
  }

  lemma {:induction false} EntryHeadersCount(e: Entry)
    requires EntryReadable(e)
    ensures |EntryHeaders(e)| == EntrySize(e)
    decreases e
  {
    if e.Sub? {
      HeadersCount(e.dir);
    }
  }
}
