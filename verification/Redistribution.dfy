/**
 Spreading images over customer folders: every image goes, under its own name or a numbered one, to the folder of a
 customer drawn at random. The draws are inputs.
 */
module Redistribution {
  import opened Options
  import opened Decimals

  /** A path by its components. */
  type Path = seq<string>
  type Content = string

  datatype Files = Files(files: map<Path, Content>, folders: set<Path>)

  predicate Exists(fs: Files, path: Path) {
    path in fs.files || path in fs.folders
  }

  // ----- a free name -----

  /** Where a name's suffix begins: at its last dot, unless that is the first or the last character. */
  function SuffixStart(name: string, n: nat): (i: nat)
    requires n <= |name|
    ensures i <= |name|
  {
    if n == 0 then |name|
    else if name[n - 1] == '.' then (if 1 < n < |name| then n - 1 else |name|)
    else SuffixStart(name, n - 1)
  }

  /** `destination.with_name(f"{stem}_{counter}{suffix}")` */
  function Candidate(destination: Path, counter: nat): (path: Path)
    requires destination != []
  {
    var name := destination[|destination| - 1];
    var dot := SuffixStart(name, |name|);
    destination[..|destination| - 1] + [name[..dot] + "_" + Decimal(counter) + name[dot..]]
  }

  lemma CandidatesDiffer(destination: Path, i: nat, j: nat)
    requires destination != [] && Candidate(destination, i) == Candidate(destination, j)
    ensures i == j
  {
    var name := destination[|destination| - 1];
    var dot := SuffixStart(name, |name|);
    var last := |destination| - 1;
    assert Candidate(destination, i)[last] == name[..dot] + "_" + Decimal(i) + name[dot..];
    assert Candidate(destination, j)[last] == name[..dot] + "_" + Decimal(j) + name[dot..];
    MiddleIsEqual(name[..dot] + "_", Decimal(i), Decimal(j), name[dot..]);
    DecimalIsInjective(i, j);
  }

  lemma MiddleIsEqual(front: string, a: string, b: string, back: string)
    requires front + a + back == front + b + back
    ensures a == b
  {
    var whole := front + a + back;
    assert |a| == |b|;
    assert a == whole[|front|..|front| + |a|];
    assert b == whole[|front|..|front| + |b|];
  }

  /** If the candidates 1 to `n` are all among some paths, there are at least `n` of these. */
  lemma {:induction false} Pigeonhole(destination: Path, paths: set<Path>, n: nat)
    requires destination != [] && forall c :: 1 <= c <= n ==> Candidate(destination, c) in paths
    ensures n <= |paths|
    decreases n
  {
    if n > 0 {
      var fewer := paths - {Candidate(destination, n)};
      forall c | 1 <= c <= n - 1 ensures Candidate(destination, c) in fewer {
        if Candidate(destination, c) == Candidate(destination, n) {
          CandidatesDiffer(destination, c, n);
        }
      }
      Pigeonhole(destination, fewer, n - 1);
    }
  }

  function Paths(fs: Files): set<Path> {
    fs.files.Keys + fs.folders
  }

  /** The candidates before `counter` are all taken. */
  predicate TakenBefore(fs: Files, destination: Path, counter: nat)
    requires destination != []
  {
    forall c :: 1 <= c < counter ==> Exists(fs, Candidate(destination, c))
  }

  lemma SomeAreLeft(fs: Files, destination: Path, counter: nat)
    requires destination != [] && counter >= 1 && TakenBefore(fs, destination, counter)
    ensures counter <= |Paths(fs)| + 1
  {
    Pigeonhole(destination, Paths(fs), counter - 1);
  }

  predicate IsNumbered(fs: Files, destination: Path, counter: nat, path: Path)
    requires destination != []
  {
    path == Candidate(destination, counter) && TakenBefore(fs, destination, counter)
  }

  /** What a path has to be to be chosen: the destination if that is free, else the first candidate that is. */
  predicate IsFirstFree(fs: Files, destination: Path, path: Path)
    requires destination != []
  {
    && !Exists(fs, path)
    && if !Exists(fs, destination) then path == destination
       else exists counter :: 1 <= counter <= |Paths(fs)| + 1 && IsNumbered(fs, destination, counter, path)
  }

  lemma FirstFreeIsUnique(fs: Files, destination: Path, a: Path, b: Path)
    requires destination != [] && IsFirstFree(fs, destination, a) && IsFirstFree(fs, destination, b)
    ensures a == b
  {
    if Exists(fs, destination) {
      var i :| 1 <= i <= |Paths(fs)| + 1 && IsNumbered(fs, destination, i, a);
      var j :| 1 <= j <= |Paths(fs)| + 1 && IsNumbered(fs, destination, j, b);
    }
  }

  function Search(fs: Files, destination: Path, counter: nat): (path: Path)
    requires destination != [] && counter >= 1 && Exists(fs, destination) && TakenBefore(fs, destination, counter)
    ensures IsFirstFree(fs, destination, path)
    decreases |Paths(fs)| + 1 - counter
  {
    SomeAreLeft(fs, destination, counter);
    assert IsNumbered(fs, destination, counter, Candidate(destination, counter));
    if !Exists(fs, Candidate(destination, counter)) then Candidate(destination, counter)
    else
      SomeAreLeft(fs, destination, counter + 1);
      Search(fs, destination, counter + 1)
  }

  function FirstFree(fs: Files, destination: Path): (path: Path)
    requires destination != []
    ensures IsFirstFree(fs, destination, path)
  {
    if !Exists(fs, destination) then destination else Search(fs, destination, 1)
  }

  // ----- the file system -----

  /** Whether a file is in the way of a folder. */
  predicate Blocked(fs: Files, folder: Path) {
    exists n :: 0 <= n <= |folder| && folder[..n] in fs.files
  }

  /** `mkdir(parents=True, exist_ok=True)` */
  function WithFolders(fs: Files, folder: Path): Files {
    fs.(folders := fs.folders + set n | 0 <= n <= |folder| :: folder[..n])
  }

  function WithCopy(fs: Files, source: Path, target: Path): Files
    requires source in fs.files
  {
    fs.(files := fs.files[target := fs.files[source]])
  }

  function WithMoved(fs: Files, source: Path, target: Path): Files
    requires source in fs.files
  {
    fs.(files := (fs.files - {source})[target := fs.files[source]])
  }

  class Disk {
    var fs: Files

    constructor (fs: Files)
      ensures this.fs == fs
    {
      this.fs := fs;
    }

    method MakeFolders(folder: Path) returns (ok: bool)
      modifies this
      ensures ok == !Blocked(old(fs), folder)
      ensures fs == if ok then WithFolders(old(fs), folder) else old(fs)
    {
      ok := !Blocked(fs, folder);
      if ok {
        fs := WithFolders(fs, folder);
      }
    }

    method Transfer(source: Path, target: Path, move: bool) returns (ok: bool)
      modifies this
      ensures ok == (source in old(fs).files)
      ensures fs ==
        if !ok then old(fs) else if move then WithMoved(old(fs), source, target) else WithCopy(old(fs), source, target)
    {
      ok := source in fs.files;
      if ok {
        fs := if move then WithMoved(fs, source, target) else WithCopy(fs, source, target);
      }
    }

    /** The name without a number, or with the first number for which it is free; the search ends. */
    method UniqueDestinationPath(destination: Path) returns (path: Path)
      requires destination != []
      ensures path == FirstFree(fs, destination)
    {
      if !Exists(fs, destination) {
        return destination;
      }
      var counter := 1;
      path := Candidate(destination, counter);
      while Exists(fs, path)
        invariant counter >= 1 && path == Candidate(destination, counter)
        invariant TakenBefore(fs, destination, counter)
        invariant Search(fs, destination, counter) == FirstFree(fs, destination)
        decreases |Paths(fs)| + 1 - counter
      {
        SomeAreLeft(fs, destination, counter + 1);
        counter := counter + 1;
        path := Candidate(destination, counter);
      }
    }
  }

  // ----- the redistribution -----

  datatype Job = Job(output: Path, move: bool)

  /** The state after some images, where they went, and whether the next one could not be placed. */
  datatype Outcome = Outcome(fs: Files, placed: seq<Path>, failed: bool)

  function PlaceNext(o: Outcome, job: Job, image: Path, customer: string): Outcome
    requires image != []
  {
    var folder := job.output + [customer];
    if o.failed then o
    else if Blocked(o.fs, folder) then o.(failed := true)
    else
      var fs := WithFolders(o.fs, folder);
      var target := FirstFree(fs, folder + [image[|image| - 1]]);
      if image !in fs.files then Outcome(fs, o.placed, true)
      else Outcome(if job.move then WithMoved(fs, image, target) else WithCopy(fs, image, target),
                   o.placed + [target], false)
  }

  function Place(fs: Files, job: Job, images: seq<Path>, customers: seq<string>, n: nat): (o: Outcome)
    requires n <= |images| <= |customers| && forall i :: 0 <= i < |images| ==> images[i] != []
  {
    if n == 0 then Outcome(fs, [], false)
    else PlaceNext(Place(fs, job, images, customers, n - 1), job, images[n - 1], customers[n - 1])
  }

  /** The loop over the images, with the customers drawn; the counts are None when a file operation failed. */
  method SpreadOver(disk: Disk, customers: seq<string>, images: seq<Path>, job: Job, dryRun: bool)
    returns (counts: Option<(nat, nat)>)
    requires |images| <= |customers| && forall i :: 0 <= i < |images| ==> images[i] != []
    modifies disk
    ensures dryRun ==> disk.fs == old(disk.fs) && counts.Some?
    ensures !dryRun ==>
      var o := Place(old(disk.fs), job, images, customers, |images|);
      disk.fs == o.fs && counts.Some? == !o.failed
    ensures counts.Some? ==>
      counts.value == (|images|, |set i | 0 <= i < |images| :: customers[i]|)
  {
    var writtenCount, touched: set<string> := 0, {};
    for i := 0 to |images|
      invariant writtenCount == i && touched == set c | 0 <= c < i :: customers[c]
      invariant dryRun ==> disk.fs == old(disk.fs)
      invariant !dryRun ==> var o := Place(old(disk.fs), job, images, customers, i); disk.fs == o.fs && !o.failed
    {
      var image, folder := images[i], job.output + [customers[i]];
      if !dryRun {
        var ok := disk.MakeFolders(folder);
        if ok {
          var target := disk.UniqueDestinationPath(folder + [image[|image| - 1]]);
          ok := disk.Transfer(image, target, job.move);
        }
        if !ok {
          FailureStays(old(disk.fs), job, images, customers, i + 1, |images|);
          return None;
        }
      }
      touched := touched + {customers[i]};
      writtenCount := writtenCount + 1;
    }
    counts := Some((writtenCount, |touched|));
  }

  /** What `choice` draws, one customer for each image. */
  function Drawn(customerIds: seq<string>, draw: nat -> nat, n: nat): seq<string>
    requires customerIds != []
  {
    seq(n, i requires 0 <= i < n => customerIds[draw(i) % |customerIds|])
  }

  /** Every image gets the customer that is drawn for it. */
  lemma DrawnAsChosen(customerIds: seq<string>, draw: nat -> nat, n: nat, i: nat)
    requires customerIds != [] && i < n
    ensures |Drawn(customerIds, draw, n)| == n && Drawn(customerIds, draw, n)[i] in customerIds
    ensures draw(i) < |customerIds| ==> Drawn(customerIds, draw, n)[i] == customerIds[draw(i)]
  {
  }

  /** The counts are None when a file operation failed, or when there is nobody to choose from. */
  method RedistributeImages(
    disk: Disk, customerIds: seq<string>, images: seq<Path>, job: Job, dryRun: bool, draw: nat -> nat)
    returns (counts: Option<(nat, nat)>)
    requires forall i :: 0 <= i < |images| ==> images[i] != []
    modifies disk
    ensures customerIds == [] ==> disk.fs == old(disk.fs) && counts == if images == [] then Some((0, 0)) else None
    ensures customerIds != [] ==>
      var customers := Drawn(customerIds, draw, |images|);
      var o := Place(old(disk.fs), job, images, customers, |images|);
      && disk.fs == (if dryRun then old(disk.fs) else o.fs)
      && counts ==
        if !dryRun && o.failed then None else Some((|images|, |set i | 0 <= i < |images| :: customers[i]|))
  {
    if images == [] {
      return Some((0, 0));
    }
    if customerIds == [] {
      return None;
    }
    counts := SpreadOver(disk, Drawn(customerIds, draw, |images|), images, job, dryRun);
  }

  lemma {:induction false} FailureStays(
    fs: Files, job: Job, images: seq<Path>, customers: seq<string>, n: nat, m: nat)
    requires n <= m <= |images| <= |customers| && forall i :: 0 <= i < |images| ==> images[i] != []
    requires Place(fs, job, images, customers, n).failed
    ensures Place(fs, job, images, customers, m) == Place(fs, job, images, customers, n)
    decreases m
  {
    if n < m {
      FailureStays(fs, job, images, customers, n, m - 1);
    }
  }

  // ----- nothing is lost -----

  /** The contents of all files, counted. */
  ghost function Contents(files: map<Path, Content>): multiset<Content>
    decreases |files|
  {
    if files == map[] then multiset{}
    else
      var path :| path in files;
      multiset{files[path]} + Contents(files - {path})
  }

  lemma WithoutTwo(files: map<Path, Content>, a: Path, b: Path)
    ensures files - {a} - {b} == files - {b} - {a}
  {
  }

  lemma {:induction false} ContentsWithout(files: map<Path, Content>, path: Path)
    requires path in files
    ensures Contents(files) == multiset{files[path]} + Contents(files - {path})
    decreases |files|
  {
    var first :| first in files && Contents(files) == multiset{files[first]} + Contents(files - {first});
    if first != path {
      var a, b := files - {first}, files - {path};
      ContentsWithout(a, path);
      ContentsWithout(b, first);
      WithoutTwo(files, first, path);
      assert Contents(a - {path}) == Contents(b - {first});
    }
  }

  lemma ContentsWith(files: map<Path, Content>, path: Path, content: Content)
    requires path !in files
    ensures Contents(files[path := content]) == Contents(files) + multiset{content}
  {
    ContentsWithout(files[path := content], path);
    assert files[path := content] - {path} == files;
  }

  /** Moving keeps the contents of all files, in every run, even one that fails on the way. */
  lemma {:induction false} MovingLosesNothing(
    fs: Files, job: Job, images: seq<Path>, customers: seq<string>, n: nat)
    requires n <= |images| <= |customers| && forall i :: 0 <= i < |images| ==> images[i] != []
    requires job.move
    ensures Contents(Place(fs, job, images, customers, n).fs.files) == Contents(fs.files)
  {
    if n > 0 {
      MovingLosesNothing(fs, job, images, customers, n - 1);
      MoveKeepsContents(Place(fs, job, images, customers, n - 1), job, images[n - 1], customers[n - 1]);
    }
  }

  lemma MoveKeepsContents(o: Outcome, job: Job, image: Path, customer: string)
    requires image != [] && job.move
    ensures Contents(PlaceNext(o, job, image, customer).fs.files) == Contents(o.fs.files)
  {
    var next := PlaceNext(o, job, image, customer);
    if !o.failed && !next.failed {
      var target := next.placed[|o.placed|];
      var fs := WithFolders(o.fs, job.output + [customer]);
      assert !Exists(fs, target);
      ContentsWithout(o.fs.files, image);
      ContentsWith(o.fs.files - {image}, target, o.fs.files[image]);
    }
  }

  // ----- nothing is overwritten -----

  predicate Distinct(paths: seq<Path>) {
    forall i, j :: 0 <= i < j < |paths| ==> paths[i] != paths[j]
  }

  /** The images placed so far lie, with their content, at different paths below the output folder. */
  predicate Landed(
    files: map<Path, Content>, placed: seq<Path>, was: map<Path, Content>, images: seq<Path>, output: Path)
  {
    && |placed| <= |images| && Distinct(placed)
    && forall i :: 0 <= i < |placed| ==>
      images[i] in was && placed[i] in files && files[placed[i]] == was[images[i]] && output <= placed[i]
  }

  /** None of these paths was there before, unless an image has moved away from it. */
  predicate Fresh(placed: seq<Path>, was: map<Path, Content>, images: seq<Path>, move: bool)
  {
    |placed| <= |images|
    && forall path :: path in placed && path in was ==> move && path in images[..|placed|]
  }

  /** Files that no image has moved away from are as they were. */
  predicate Untouched(
    files: map<Path, Content>, placed: seq<Path>, was: map<Path, Content>, images: seq<Path>, move: bool)
  {
    |placed| <= |images|
    && forall path :: path in was && !(move && path in images[..|placed|]) ==> path in files && files[path] == was[path]
  }

  /** There is no other file, and none where an image has moved away and no other came. */
  predicate NothingElse(
    files: map<Path, Content>, placed: seq<Path>, was: map<Path, Content>, images: seq<Path>, move: bool)
  {
    |placed| <= |images|
    && forall path :: path in files && path !in placed ==> path in was && !(move && path in images[..|placed|])
  }

  ghost predicate Spread(o: Outcome, fs: Files, job: Job, images: seq<Path>) {
    && Landed(o.fs.files, o.placed, fs.files, images, job.output)
    && Fresh(o.placed, fs.files, images, job.move)
    && Untouched(o.fs.files, o.placed, fs.files, images, job.move)
    && NothingElse(o.fs.files, o.placed, fs.files, images, job.move)
  }

  /** One image goes from where it is to a free path. */
  predicate Transferred(
    before: map<Path, Content>, after: map<Path, Content>, image: Path, target: Path, move: bool)
  {
    && image in before && target !in before
    && after == (if move then before - {image} else before)[target := before[image]]
  }

  lemma NextImageIsThere(
    files: map<Path, Content>, placed: seq<Path>, was: map<Path, Content>, images: seq<Path>, move: bool)
    requires Distinct(images) && |placed| < |images| && images[|placed|] in was
    requires Untouched(files, placed, was, images, move)
    ensures images[|placed|] !in images[..|placed|]
    ensures images[|placed|] in files && files[images[|placed|]] == was[images[|placed|]]
  {
  }

  lemma NextLands(
    files: map<Path, Content>, after: map<Path, Content>, placed: seq<Path>, target: Path,
    was: map<Path, Content>, images: seq<Path>, output: Path, move: bool)
    requires Landed(files, placed, was, images, output) && Fresh(placed, was, images, move) && |placed| < |images|
    requires var image := images[|placed|];
      && image in was && image in files && files[image] == was[image] && image !in images[..|placed|]
      && Transferred(files, after, image, target, move)
    requires output <= target
    ensures Landed(after, placed + [target], was, images, output)
  {
    assert forall i :: 0 <= i < |placed| ==> placed[i] in placed;
  }

  lemma NextIsFresh(
    files: map<Path, Content>, placed: seq<Path>, target: Path,
    was: map<Path, Content>, images: seq<Path>, move: bool)
    requires Fresh(placed, was, images, move) && Untouched(files, placed, was, images, move)
    requires |placed| < |images| && target !in files
    ensures Fresh(placed + [target], was, images, move)
  {
    PrefixGrows(images, |placed|);
  }

  lemma PrefixGrows<T>(s: seq<T>, n: nat)
    requires n < |s|
    ensures forall x :: x in s[..n + 1] <==> x in s[..n] || x == s[n]
  {
    assert s[..n + 1] == s[..n] + [s[n]];
  }

  lemma NextLeavesOthers(
    files: map<Path, Content>, after: map<Path, Content>, placed: seq<Path>, target: Path,
    was: map<Path, Content>, images: seq<Path>, move: bool)
    requires Untouched(files, placed, was, images, move) && NothingElse(files, placed, was, images, move)
    requires |placed| < |images| && Transferred(files, after, images[|placed|], target, move)
    ensures Untouched(after, placed + [target], was, images, move)
    ensures images[|placed|] !in placed ==> NothingElse(after, placed + [target], was, images, move)
  {
    PrefixGrows(images, |placed|);
  }

  lemma PlaceNextSpreads(o: Outcome, fs: Files, job: Job, images: seq<Path>, customer: string)
    requires Distinct(images) && Spread(o, fs, job, images) && |o.placed| < |images| && images[|o.placed|] != []
    requires images[|o.placed|] in fs.files
    ensures Spread(PlaceNext(o, job, images[|o.placed|], customer), fs, job, images)
  {
    var image, next := images[|o.placed|], PlaceNext(o, job, images[|o.placed|], customer);
    NextImageIsThere(o.fs.files, o.placed, fs.files, images, job.move);
    if !o.failed && !next.failed {
      var target := next.placed[|o.placed|];
      TargetIsBelow(o, job, image, customer);
      NextLands(o.fs.files, next.fs.files, o.placed, target, fs.files, images, job.output, job.move);
      NextIsFresh(o.fs.files, o.placed, target, fs.files, images, job.move);
      NextLeavesOthers(o.fs.files, next.fs.files, o.placed, target, fs.files, images, job.move);
    }
  }

  lemma TargetIsBelow(o: Outcome, job: Job, image: Path, customer: string)
    requires image != [] && !o.failed && !PlaceNext(o, job, image, customer).failed
    ensures var next := PlaceNext(o, job, image, customer);
      && next.placed == o.placed + [next.placed[|o.placed|]] && job.output <= next.placed[|o.placed|]
      && Transferred(o.fs.files, next.fs.files, image, next.placed[|o.placed|], job.move)
  {
  }

  /**
   In every run, images end at distinct free paths with their contents, and no other file changes. The images are
   files at the start, each listed once. A run fails only when a file is in the way of a customer's folder.
   */
  lemma {:induction false} PlacingOverwritesNothing(
    fs: Files, job: Job, images: seq<Path>, customers: seq<string>, n: nat, o: Outcome)
    requires n <= |images| <= |customers| && Distinct(images)
    requires forall i :: 0 <= i < |images| ==> images[i] != [] && images[i] in fs.files
    requires o == Place(fs, job, images, customers, n)
    ensures Spread(o, fs, job, images) && |o.placed| <= n
    ensures if o.failed then |o.placed| < n && Blocked(o.fs, job.output + [customers[|o.placed|]]) else |o.placed| == n
  {
    if n > 0 {
      var before := Place(fs, job, images, customers, n - 1);
      PlaceStep(fs, job, images, customers, n, before, o);
      PlacingOverwritesNothing(fs, job, images, customers, n - 1, before);
      if !before.failed {
        NextPlaces(before, o, fs, job, images, n - 1, customers[n - 1]);
      }
    }
  }

  lemma NextPlaces(before: Outcome, o: Outcome, fs: Files, job: Job, images: seq<Path>, n: nat, customer: string)
    requires Distinct(images) && Spread(before, fs, job, images) && !before.failed
    requires n == |before.placed| < |images| && images[n] != [] && images[n] in fs.files
    requires o == PlaceNext(before, job, images[n], customer)
    ensures Spread(o, fs, job, images)
    ensures if o.failed then |o.placed| == n && Blocked(o.fs, job.output + [customer]) else |o.placed| == n + 1
  {
    NextImageIsThere(before.fs.files, before.placed, fs.files, images, job.move);
    PlaceNextSpreads(before, fs, job, images, customer);
  }

  lemma PlaceStep(
    fs: Files, job: Job, images: seq<Path>, customers: seq<string>, n: nat, before: Outcome, o: Outcome)
    requires 0 < n <= |images| <= |customers| && forall i :: 0 <= i < |images| ==> images[i] != []
    requires before == Place(fs, job, images, customers, n - 1) && o == Place(fs, job, images, customers, n)
    ensures o == PlaceNext(before, job, images[n - 1], customers[n - 1])
  {
  }

  /** With images from outside the output folder, or copied ones, no path that was there before is written. */
  lemma DestinationsWereFree(o: Outcome, fs: Files, job: Job, images: seq<Path>)
    requires Spread(o, fs, job, images)
    requires !job.move || forall i :: 0 <= i < |images| ==> !(job.output <= images[i])
    ensures forall path :: path in o.placed ==> path !in fs.files
  {
  }

  /** The contents of all files, and once more those of the first `n` images. */
  ghost function WithImages(files: map<Path, Content>, images: seq<Path>, n: nat): multiset<Content>
    requires n <= |images| && forall i :: 0 <= i < |images| ==> images[i] in files
  {
    if n == 0 then Contents(files) else WithImages(files, images, n - 1) + multiset{files[images[n - 1]]}
  }

  lemma CopyNext(
    o: Outcome, next: Outcome, was: map<Path, Content>, job: Job, images: seq<Path>, n: nat, customer: string)
    requires !job.move && n == |o.placed| < |images| && images[n] != []
    requires next == PlaceNext(o, job, images[n], customer)
    requires forall i :: 0 <= i < |images| ==> images[i] in was
    requires images[n] in o.fs.files && o.fs.files[images[n]] == was[images[n]]
    requires Contents(o.fs.files) == WithImages(was, images, n)
    ensures |next.placed| <= |images| && Contents(next.fs.files) == WithImages(was, images, |next.placed|)
  {
    CopyAddsContents(o, job, images[n], customer);
  }

  lemma CopyPlaces(
    before: Outcome, o: Outcome, fs: Files, job: Job, images: seq<Path>, n: nat, customer: string)
    requires Distinct(images) && !job.move && n < |images| && images[n] != []
    requires forall i :: 0 <= i < |images| ==> images[i] in fs.files
    requires Spread(before, fs, job, images) && o == PlaceNext(before, job, images[n], customer)
    requires |before.placed| <= n && (!before.failed ==> |before.placed| == n)
    requires Contents(before.fs.files) == WithImages(fs.files, images, |before.placed|)
    ensures |o.placed| <= |images| && Contents(o.fs.files) == WithImages(fs.files, images, |o.placed|)
  {
    if !before.failed {
      NextImageIsThere(before.fs.files, before.placed, fs.files, images, false);
      CopyNext(before, o, fs.files, job, images, n, customer);
    }
  }

  /** Copying adds one file for every image placed, and nothing else. */
  lemma {:induction false} CopyingAddsTheImages(
    fs: Files, job: Job, images: seq<Path>, customers: seq<string>, n: nat, o: Outcome)
    requires n <= |images| <= |customers| && Distinct(images) && !job.move
    requires forall i :: 0 <= i < |images| ==> images[i] != [] && images[i] in fs.files
    requires o == Place(fs, job, images, customers, n)
    ensures |o.placed| <= |images| && Contents(o.fs.files) == WithImages(fs.files, images, |o.placed|)
  {
    if n > 0 {
      var before := Place(fs, job, images, customers, n - 1);
      CopyingAddsTheImages(fs, job, images, customers, n - 1, before);
      CopyOneMore(fs, job, images, customers, n, before, o);
    }
  }

  lemma CopyOneMore(
    fs: Files, job: Job, images: seq<Path>, customers: seq<string>, n: nat, before: Outcome, o: Outcome)
    requires 0 < n <= |images| <= |customers| && Distinct(images) && !job.move
    requires forall i :: 0 <= i < |images| ==> images[i] != [] && images[i] in fs.files
    requires before == Place(fs, job, images, customers, n - 1) && o == Place(fs, job, images, customers, n)
    requires |before.placed| <= |images| && Contents(before.fs.files) == WithImages(fs.files, images, |before.placed|)
    ensures |o.placed| <= |images| && Contents(o.fs.files) == WithImages(fs.files, images, |o.placed|)
  {
    PlaceStep(fs, job, images, customers, n, before, o);
    PlacingOverwritesNothing(fs, job, images, customers, n - 1, before);
    CopyPlaces(before, o, fs, job, images, n - 1, customers[n - 1]);
  }

  lemma CopyAddsContents(o: Outcome, job: Job, image: Path, customer: string)
    requires image != [] && !job.move && image in o.fs.files
    ensures var next := PlaceNext(o, job, image, customer);
      if next.placed == o.placed then Contents(next.fs.files) == Contents(o.fs.files)
      else
        && |next.placed| == |o.placed| + 1
        && Contents(next.fs.files) == Contents(o.fs.files) + multiset{o.fs.files[image]}
  {
    var next := PlaceNext(o, job, image, customer);
    if !o.failed && !next.failed {
      TargetIsBelow(o, job, image, customer);
      ContentsWith(o.fs.files, next.placed[|o.placed|], o.fs.files[image]);
    }
  }

  // ----- names and folders -----

  lemma {:induction false} NoSuffix(name: string, n: nat)
    requires n <= |name| && forall i :: 0 <= i < n ==> name[i] != '.'
    ensures SuffixStart(name, n) == |name|
  {
    if n > 0 {
      NoSuffix(name, n - 1);
    }
  }

  lemma {:induction false} SuffixBehindDot(stem: string, suffix: string, name: string, n: nat)
    requires name == stem + "." + suffix && stem != "" && suffix != "" && |stem| < n <= |name|
    requires forall i :: 0 <= i < |suffix| ==> suffix[i] != '.'
    ensures SuffixStart(name, n) == |stem|
  {
    if n == |stem| + 1 {
      assert name[|stem|] == '.';
    } else {
      assert name[n - 1] == suffix[n - 1 - |stem| - 1];
      SuffixBehindDot(stem, suffix, name, n - 1);
    }
  }

  /** The number goes between the stem and the last suffix; a name without one just gets it at its end. */
  lemma NumberedName(folder: Path, stem: string, suffix: string, counter: nat)
    requires stem != "" && forall i :: 0 <= i < |suffix| ==> suffix[i] != '.'
    ensures suffix != "" ==>
      Candidate(folder + [stem + "." + suffix], counter) == folder + [stem + "_" + Decimal(counter) + ("." + suffix)]
    ensures (forall i :: 0 <= i < |stem| ==> stem[i] != '.') ==>
      Candidate(folder + [stem], counter) == folder + [stem + "_" + Decimal(counter)]
  {
    if suffix != "" {
      var name := stem + "." + suffix;
      SuffixBehindDot(stem, suffix, name, |name|);
      assert name[..|stem|] == stem && name[|stem|..] == "." + suffix;
      assert (folder + [name])[..|folder|] == folder;
    }
    if forall i :: 0 <= i < |stem| ==> stem[i] != '.' {
      NoSuffix(stem, |stem|);
      assert stem[..|stem|] == stem && stem[|stem|..] == "";
      assert (folder + [stem])[..|folder|] == folder;
      assert stem + "_" + Decimal(counter) + "" == stem + "_" + Decimal(counter);
    }
  }

  lemma {:induction false} LeadingDot(name: string, n: nat)
    requires 0 < n <= |name| && name[0] == '.' && forall i :: 0 < i < n ==> name[i] != '.'
    ensures SuffixStart(name, n) == |name|
  {
    if n > 1 {
      LeadingDot(name, n - 1);
    }
  }

  /** A dot at the very start or the very end begins no suffix. */
  lemma EdgeDots(folder: Path, word: string, counter: nat)
    requires word != "" && forall i :: 0 <= i < |word| ==> word[i] != '.'
    ensures Candidate(folder + ["." + word], counter) == folder + ["." + word + "_" + Decimal(counter)]
    ensures Candidate(folder + [word + "."], counter) == folder + [word + "." + "_" + Decimal(counter)]
  {
    var hidden, dotted := "." + word, word + ".";
    LeadingDot(hidden, |hidden|);
    assert SuffixStart(dotted, |dotted|) == |dotted|;
    assert hidden[..|hidden|] == hidden && hidden[|hidden|..] == "";
    assert dotted[..|dotted|] == dotted && dotted[|dotted|..] == "";
    assert (folder + [hidden])[..|folder|] == folder && (folder + [dotted])[..|folder|] == folder;
    assert hidden + "_" + Decimal(counter) + "" == hidden + "_" + Decimal(counter);
    assert dotted + "_" + Decimal(counter) + "" == dotted + "_" + Decimal(counter);
  }

  /** An image that is there fails to be placed exactly if a file stands where its folder, or one above, should be. */
  lemma NextFailsIff(o: Outcome, job: Job, image: Path, customer: string)
    requires image != [] && !o.failed && image in o.fs.files
    ensures var folder := job.output + [customer];
      PlaceNext(o, job, image, customer).failed <==> exists n :: 0 <= n <= |folder| && folder[..n] in o.fs.files
  {
  }

  predicate IsNumberedAs(own: Path, counter: nat, place: Path)
    requires own != []
  {
    place == Candidate(own, counter)
  }

  /** Where an image may end: in its customer's folder, under its own name or a numbered one. */
  ghost predicate IsPlaceFor(output: Path, customer: string, image: Path, place: Path)
    requires image != []
  {
    var own := output + [customer, image[|image| - 1]];
    place == own || exists counter: nat :: counter >= 1 && IsNumberedAs(own, counter, place)
  }

  /** The folder and all above it are there. */
  predicate HasFolders(fs: Files, folder: Path) {
    forall n :: 0 <= n <= |folder| ==> folder[..n] in fs.folders
  }

  lemma NextIsInPlace(o: Outcome, job: Job, image: Path, customer: string)
    requires image != []
    ensures var next := PlaceNext(o, job, image, customer);
      && o.fs.folders <= next.fs.folders
      && (next.placed == o.placed || (
        && |next.placed| == |o.placed| + 1 && next.placed[..|o.placed|] == o.placed
        && IsPlaceFor(job.output, customer, image, next.placed[|o.placed|])
        && HasFolders(next.fs, job.output + [customer])))
  {
    var next := PlaceNext(o, job, image, customer);
    if !o.failed && !next.failed {
      var folder := job.output + [customer];
      var fs, own := WithFolders(o.fs, folder), folder + [image[|image| - 1]];
      assert own == job.output + [customer, image[|image| - 1]];
      var target := FirstFree(fs, own);
      if target != own {
        var counter :| 1 <= counter <= |Paths(fs)| + 1 && IsNumbered(fs, own, counter, target);
        assert IsNumberedAs(own, counter, target);
      }
    }
  }

  ghost predicate IsInPlace(o: Outcome, job: Job, image: Path, customer: string, i: nat)
    requires image != [] && i < |o.placed|
  {
    IsPlaceFor(job.output, customer, image, o.placed[i]) && HasFolders(o.fs, job.output + [customer])
  }

  /** Later images leave earlier ones in their places. */
  lemma StaysInPlace(
    before: Outcome, job: Job, later: Path, laterCustomer: string, image: Path, customer: string, i: nat)
    requires image != [] && later != [] && i < |before.placed| && IsInPlace(before, job, image, customer, i)
    ensures var o := PlaceNext(before, job, later, laterCustomer);
      i < |o.placed| && IsInPlace(o, job, image, customer, i)
  {
    NextIsInPlace(before, job, later, laterCustomer);
    var o := PlaceNext(before, job, later, laterCustomer);
    assert o.placed[i] == o.placed[..|before.placed|][i] == before.placed[i];
  }

  /** Every image placed is in its own customer's folder, under its own name or that name with a number. */
  lemma {:induction false} PlacesAreTheirOwn(
    fs: Files, job: Job, images: seq<Path>, customers: seq<string>, n: nat, o: Outcome, i: nat)
    requires n <= |images| <= |customers| && forall k :: 0 <= k < |images| ==> images[k] != []
    requires o == Place(fs, job, images, customers, n) && i < |o.placed| <= n
    ensures IsInPlace(o, job, images[i], customers[i], i)
  {
    var before := Place(fs, job, images, customers, n - 1);
    PlaceStep(fs, job, images, customers, n, before, o);
    PlacedCount(fs, job, images, customers, n - 1, before);
    if i < |before.placed| {
      PlacesAreTheirOwn(fs, job, images, customers, n - 1, before, i);
      StaysInPlace(before, job, images[n - 1], customers[n - 1], images[i], customers[i], i);
    } else {
      NextIsInPlace(before, job, images[n - 1], customers[n - 1]);
    }
  }

  lemma {:induction false} PlacedCount(
    fs: Files, job: Job, images: seq<Path>, customers: seq<string>, n: nat, o: Outcome)
    requires n <= |images| <= |customers| && forall k :: 0 <= k < |images| ==> images[k] != []
    requires o == Place(fs, job, images, customers, n)
    ensures |o.placed| <= n && (!o.failed ==> |o.placed| == n)
  {
    if n > 0 {
      var before := Place(fs, job, images, customers, n - 1);
      PlacedCount(fs, job, images, customers, n - 1, before);
      PlaceStep(fs, job, images, customers, n, before, o);
    }
  }
}
