/** The storage limits of captures (backend/capture/pcap.py): pruning and the bound it gives. */
module PcapStorage {
  import opened Listing
  import opened Sorting
  import opened Wrappers

  const MAX_TOTAL_BYTES: nat := 1_000_000_000
  const ROTATE_BYTES: nat := 100_000_000

  /**
   A capture file; `counted` says whether its size can be read when the total is taken, `removable`
   whether reading it once more and unlinking it succeed.
   */
  datatype File = File(name: string, size: nat, mtime: int, counted: bool, removable: bool)

  function Total(files: seq<File>): (t: nat) {
    if files == [] then 0 else files[0].size + Total(files[1..])
  }

  /** The bytes of the files whose size can be read. */
  function Counted(files: seq<File>): (t: nat) {
    if files == [] then 0 else (if files[0].counted then files[0].size else 0) + Counted(files[1..])
  }

  predicate Deletable(f: File, protect: Option<string>) {
    f.removable && protect != Some(f.name)
  }

  /** What is left of `files`, oldest first, when `total` bytes are stored. */
  function Pruned(files: seq<File>, total: int, protect: Option<string>): (kept: seq<File>) {
    if files == [] || total <= MAX_TOTAL_BYTES then files
    else if Deletable(files[0], protect) then Pruned(files[1..], total - files[0].size, protect)
    else [files[0]] + Pruned(files[1..], total, protect)
  }

  function ByAge(files: seq<File>): seq<File> {
    SortBy((f: File) => f.mtime, files)
  }

  function Prune(files: seq<File>, protect: Option<string>): seq<File> {
    Pruned(ByAge(files), Counted(files), protect)
  }

  // ----- What pruning removes -----

  function DeletableCount(files: seq<File>, protect: Option<string>): (n: nat) {
    if files == [] then 0
    else (if Deletable(files[0], protect) then 1 else 0) + DeletableCount(files[1..], protect)
  }

  /** `files` without its first `k` deletable files. */
  function WithoutOldest(files: seq<File>, k: nat, protect: Option<string>): seq<File> {
    if files == [] || k == 0 then files
    else if Deletable(files[0], protect) then WithoutOldest(files[1..], k - 1, protect)
    else [files[0]] + WithoutOldest(files[1..], k, protect)
  }

  /** The number of files that are pruned. */
  function PrunedCount(files: seq<File>, total: int, protect: Option<string>): (k: nat) {
    if files == [] || total <= MAX_TOTAL_BYTES then 0
    else if Deletable(files[0], protect) then 1 + PrunedCount(files[1..], total - files[0].size, protect)
    else PrunedCount(files[1..], total, protect)
  }

  lemma WithoutOldestStep(files: seq<File>, k: nat, protect: Option<string>)
    requires files != []
    ensures k > 0 && Deletable(files[0], protect) ==>
              WithoutOldest(files, k, protect) == WithoutOldest(files[1..], k - 1, protect)
    ensures !Deletable(files[0], protect) ==>
              Total(WithoutOldest(files, k, protect)) == files[0].size + Total(WithoutOldest(files[1..], k, protect))
              && WithoutOldest(files, k, protect) == [files[0]] + WithoutOldest(files[1..], k, protect)
  {
    if !Deletable(files[0], protect) {
      assert WithoutOldest(files, k, protect) == [files[0]] + WithoutOldest(files[1..], k, protect);
    }
  }

  /** `others` is what the total is ahead of `files`: the kept files before it, less what was not counted. */
  lemma {:induction false} PrunedIsPrefix(files: seq<File>, others: int, protect: Option<string>)
    ensures var total := others + Total(files);
            var k := PrunedCount(files, total, protect);
            && k <= DeletableCount(files, protect)
            && Pruned(files, total, protect) == WithoutOldest(files, k, protect)
            && (others + Total(WithoutOldest(files, k, protect)) <= MAX_TOTAL_BYTES || k == DeletableCount(files, protect))
    decreases |files|
  {
    hide WithoutOldest;
    var total := others + Total(files);
    var k := PrunedCount(files, total, protect);
    if files == [] || total <= MAX_TOTAL_BYTES {
      WithoutNone(files, protect);
    } else if Deletable(files[0], protect) {
      PrunedIsPrefix(files[1..], others, protect);
      WithoutOldestStep(files, k, protect);
    } else {
      PrunedIsPrefix(files[1..], others + files[0].size, protect);
      WithoutOldestStep(files, k, protect);
    }
  }

  lemma WithoutNone(files: seq<File>, protect: Option<string>)
    ensures WithoutOldest(files, 0, protect) == files && (files == [] ==> DeletableCount(files, protect) == 0)
  {
  }

  lemma {:induction false} FewerAreTooMany(files: seq<File>, others: int, protect: Option<string>, j: nat)
    requires j < PrunedCount(files, others + Total(files), protect)
    ensures others + Total(WithoutOldest(files, j, protect)) > MAX_TOTAL_BYTES
    decreases |files|
  {
    hide WithoutOldest;
    if j == 0 {
      WithoutNone(files, protect);
    } else if Deletable(files[0], protect) {
      FewerAreTooMany(files[1..], others, protect, j - 1);
      WithoutOldestStep(files, j, protect);
    } else {
      FewerAreTooMany(files[1..], others + files[0].size, protect, j);
      WithoutOldestStep(files, j, protect);
    }
  }

  lemma {:induction false} TotalSplit(a: seq<File>, b: seq<File>)
    ensures Total(a + b) == Total(a) + Total(b)
    decreases |a|
  {
    if a == [] {
      assert a + b == b;
    } else {
      TotalSplit(a[1..], b);
      assert (a + b)[1..] == a[1..] + b;
    }
  }

  lemma {:induction false} CountedSplit(a: seq<File>, b: seq<File>)
    ensures Counted(a + b) == Counted(a) + Counted(b)
    decreases |a|
  {
    if a == [] {
      assert a + b == b;
    } else {
      CountedSplit(a[1..], b);
      assert (a + b)[1..] == a[1..] + b;
    }
  }

  lemma {:induction false} InsertTotal(key: File -> int, f: File, files: seq<File>)
    ensures Total(Insert(key, f, files)) == Total(files) + f.size
    ensures Counted(Insert(key, f, files)) == Counted(files) + if f.counted then f.size else 0
    decreases |files|
  {
    if files == [] || key(files[|files| - 1]) <= key(f) {
      TotalSplit(files, [f]);
      CountedSplit(files, [f]);
    } else {
      var init, last := files[..|files| - 1], files[|files| - 1];
      InsertTotal(key, f, init);
      TotalSplit(Insert(key, f, init), [last]);
      CountedSplit(Insert(key, f, init), [last]);
      TotalSplit(init, [last]);
      CountedSplit(init, [last]);
      assert files == init + [last];
    }
  }

  lemma {:induction false} SortTotal(key: File -> int, files: seq<File>)
    ensures Total(SortBy(key, files)) == Total(files) && Counted(SortBy(key, files)) == Counted(files)
    decreases |files|
  {
    if files != [] {
      var init, last := files[..|files| - 1], files[|files| - 1];
      SortTotal(key, init);
      InsertTotal(key, last, SortBy(key, init));
      TotalSplit(init, [last]);
      CountedSplit(init, [last]);
      assert files == init + [last];
    }
  }

  lemma ByAgeTotal(files: seq<File>)
    ensures Total(ByAge(files)) == Total(files) && Counted(ByAge(files)) == Counted(files)
    ensures multiset(ByAge(files)) == multiset(files)
    ensures Ascending((f: File) => f.mtime, ByAge(files))
  {
    SortBySorts((f: File) => f.mtime, files);
    SortTotal((f: File) => f.mtime, files);
  }

  /**
   Pruning removes the shortest prefix, oldest first, of the deletable files that brings the total to the
   cap, or else all of them; everything else stays.  The cap is exceeded by what could not be counted.
   */
  lemma PruneIsShortestPrefix(files: seq<File>, protect: Option<string>)
    ensures var aged := ByAge(files);
            var cap := 1_000_000_000 + Total(files) - Counted(files);
            exists k: nat ::
              && k <= DeletableCount(aged, protect)
              && Prune(files, protect) == WithoutOldest(aged, k, protect)
              && (Total(Prune(files, protect)) <= cap || k == DeletableCount(aged, protect))
              && forall j: nat :: j < k ==> Total(WithoutOldest(aged, j, protect)) > cap
  {
    var aged := ByAge(files);
    var ahead := Counted(files) - Total(files);
    ByAgeTotal(files);
    PrunedIsPrefix(aged, ahead, protect);
    var k := PrunedCount(aged, Counted(files), protect);
    forall j: nat | j < k
      ensures Total(WithoutOldest(aged, j, protect)) > MAX_TOTAL_BYTES - ahead
    {
      FewerAreTooMany(aged, ahead, protect, j);
    }
  }

  predicate AllAccessible(files: seq<File>) {
    forall f :: f in files ==> f.counted && f.removable
  }

  lemma {:induction false} AccessibleCounted(files: seq<File>)
    requires AllAccessible(files)
    ensures Counted(files) == Total(files)
    decreases |files|
  {
    if files != [] {
      AccessibleCounted(files[1..]);
    }
  }

  lemma {:induction false} PrunedIsSuffix(files: seq<File>)
    requires AllAccessible(files)
    ensures var k := PrunedCount(files, Total(files), None);
            k <= |files| && Pruned(files, Total(files), None) == files[k..] && Total(files[k..]) <= MAX_TOTAL_BYTES
    decreases |files|
  {
    if files != [] && Total(files) > MAX_TOTAL_BYTES {
      PrunedIsSuffix(files[1..]);
      assert files[1..][PrunedCount(files[1..], Total(files[1..]), None)..] == files[PrunedCount(files, Total(files), None)..];
    }
  }

  /** With nothing protected, what is kept is the longest suffix, newest files last, under the cap. */
  lemma {:induction false} SuffixKept(files: seq<File>, i: nat)
    requires AllAccessible(files) && i < |files|
    ensures i >= PrunedCount(files, Total(files), None) <==> Total(files[i..]) <= MAX_TOTAL_BYTES
    decreases |files|
  {
    if Total(files) <= MAX_TOTAL_BYTES {
      TotalSplit(files[..i], files[i..]);
      assert files == files[..i] + files[i..];
    } else if i > 0 {
      SuffixKept(files[1..], i - 1);
      assert files[1..][i - 1..] == files[i..];
    } else {
      assert files[0..] == files;
    }
  }

  /**
   Every call of `_prune_oldest` passes `protect=None`, so the file being written is not safe as such:
   it survives if and only if it and the files that are not older fit under the cap.
   */
  lemma UnprotectedKeptIff(files: seq<File>, i: nat)
    requires AllAccessible(files) && i < |files|
    ensures var aged := ByAge(files);
            exists k: nat :: k <= |aged| && Prune(files, None) == aged[k..]
                             && |aged| == |files| && (i >= k <==> Total(aged[i..]) <= MAX_TOTAL_BYTES)
  {
    var aged := ByAge(files);
    ByAgeTotal(files);
    assert |multiset(aged)| == |multiset(files)|;
    assert AllAccessible(aged) by {
      forall f | f in aged ensures f.counted && f.removable { assert f in multiset(aged); }
    }
    AccessibleCounted(files);
    PrunedIsSuffix(aged);
    SuffixKept(aged, i);
    assert Prune(files, None) == aged[PrunedCount(aged, Total(aged), None)..];
  }

  /** A protected file is never removed. */
  lemma {:induction false} ProtectedIsKept(files: seq<File>, total: int, f: File)
    requires f in files
    ensures f in Pruned(files, total, Some(f.name))
    decreases |files|
  {
    if total > MAX_TOTAL_BYTES && f in files[1..] {
      ProtectedIsKept(files[1..], if Deletable(files[0], Some(f.name)) then total - files[0].size else total, f);
    }
  }

  /** Nor is a file that cannot be read or unlinked. */
  lemma {:induction false} UnremovableIsKept(files: seq<File>, total: int, protect: Option<string>, f: File)
    requires f in files && !f.removable
    ensures f in Pruned(files, total, protect)
    decreases |files|
  {
    if total > MAX_TOTAL_BYTES && f in files[1..] {
      UnremovableIsKept(files[1..], if Deletable(files[0], protect) then total - files[0].size else total, protect, f);
    }
  }

  lemma PruneFitsCap(files: seq<File>)
    requires AllAccessible(files)
    ensures Total(Prune(files, None)) <= MAX_TOTAL_BYTES && AllAccessible(Prune(files, None))
  {
    var aged := ByAge(files);
    ByAgeTotal(files);
    assert AllAccessible(aged) by {
      forall f | f in aged ensures f.counted && f.removable { assert f in multiset(aged); }
    }
    AccessibleCounted(files);
    PrunedIsSuffix(aged);
  }

  // ----- Pruning beside a file that is being written -----

  /** When a capture is being written while files are pruned. */
  datatype Beside =
    | NewStart                        // `start` prunes before it supersedes the running session
    | SupersededThread(closing: File) // a superseded thread prunes after closing its own last part

  /** The file being written is listed like any other. */
  function Listed(finished: seq<File>, active: File, e: Beside): seq<File> {
    match e
    case NewStart => finished + [active]
    case SupersededThread(closing) => finished + [closing] + [active]
  }

  function PrunedBeside(finished: seq<File>, active: File, e: Beside): seq<File> {
    Prune(Listed(finished, active, e), None)
  }

  function OthersListed(finished: seq<File>, e: Beside): seq<File> {
    match e
    case NewStart => finished
    case SupersededThread(closing) => finished + [closing]
  }

  lemma KeptFromIndex(others: seq<File>, active: File) returns (i: nat)
    requires AllAccessible(others + [active]) && active !in others
    ensures var aged := ByAge(others + [active]);
            && i < |aged| && aged[i] == active
            && (active in Prune(others + [active], None) <==> Total(aged[i..]) <= MAX_TOTAL_BYTES)
  {
    var files := others + [active];
    var aged := ByAge(files);
    ByAgeTotal(files);
    assert multiset(files)[active] == 1;
    assert active in multiset(aged);
    i :| 0 <= i < |aged| && aged[i] == active;
    assert AllAccessible(aged) by {
      forall f | f in aged ensures f.counted && f.removable { assert f in multiset(aged); }
    }
    AccessibleCounted(files);
    PrunedIsSuffix(aged);
    SuffixKept(aged, i);
    var k := PrunedCount(aged, Total(aged), None);
    assert Prune(files, None) == aged[k..];
    if i < k {
      if j :| k <= j < |aged| && aged[j] == active {
        TwiceCounted(aged, i, j);
      }
    } else {
      assert aged[k..][i - k] == active;
    }
  }

  /** The file being written is kept exactly when it, and what comes behind it by modification time, fit under the cap. */
  lemma ActiveKeptIff(finished: seq<File>, active: File, e: Beside)
    requires AllAccessible(Listed(finished, active, e)) && active !in OthersListed(finished, e)
    ensures var aged := ByAge(Listed(finished, active, e));
            exists i: nat :: i < |aged| && aged[i] == active
                             && (active in PrunedBeside(finished, active, e) <==> Total(aged[i..]) <= MAX_TOTAL_BYTES)
  {
    var i := KeptFromIndex(OthersListed(finished, e), active);
  }

  lemma NewestIsLast(others: seq<File>, active: File)
    requires forall f :: f in others ==> f.mtime <= active.mtime
    ensures ByAge(others + [active]) == ByAge(others) + [active]
  {
    var key := (f: File) => f.mtime;
    assert (others + [active])[..|others|] == others;
    ByAgeTotal(others);
    var aged := ByAge(others);
    if aged != [] {
      assert aged[|aged| - 1] in multiset(aged);
    }
    assert SortBy(key, others + [active]) == Insert(key, active, SortBy(key, others));
  }

  /** When no file is newer, exactly when its own size is within the cap. */
  lemma NewestKeptIff(finished: seq<File>, active: File, e: Beside)
    requires AllAccessible(Listed(finished, active, e)) && active !in OthersListed(finished, e)
    requires forall f :: f in OthersListed(finished, e) ==> f.mtime <= active.mtime
    ensures active in PrunedBeside(finished, active, e) <==> active.size <= 1_000_000_000
  {
    var others := OthersListed(finished, e);
    var i := KeptFromIndex(others, active);
    NewestIsLast(others, active);
    ByAgeTotal(others);
    var aged := ByAge(others + [active]);
    forall j | 0 <= j < |ByAge(others)|
      ensures ByAge(others)[j] != active
    {
      assert ByAge(others)[j] in multiset(ByAge(others));
    }
    assert i == |aged| - 1 && aged[i..] == [active];
  }

  /** Files left with later modification times, as after the clock was set back, cost the one being written its place. */
  lemma ActiveCanBeLost()
    ensures var later := File("lanpi-20990101T000000-001.pcap", 950_000_000, 20, true, true);
            var active := File("lanpi-20260101T000000-001.pcap", 60_000_000, 10, true, true);
            AllAccessible(Listed([later], active, NewStart)) && active !in PrunedBeside([later], active, NewStart)
  {
    var later := File("lanpi-20990101T000000-001.pcap", 950_000_000, 20, true, true);
    var active := File("lanpi-20260101T000000-001.pcap", 60_000_000, 10, true, true);
    var files := [later, active];
    assert Listed([later], active, NewStart) == files;
    assert files[..1] == [later] && [later][..0] == [];
    var key := (f: File) => f.mtime;
    assert SortBy(key, [later]) == Insert(key, later, SortBy(key, []));
    assert SortBy(key, files) == Insert(key, active, [later]);
    assert Insert(key, active, [later]) == Insert(key, active, []) + [later];
    var aged := [active, later];
    assert ByAge(files) == aged;
    assert aged[1..] == [later] && files[1..] == [active];
    assert Total(files) == 1_010_000_000 by {
      assert Total([active]) == 60_000_000 by { assert [active][1..] == []; }
    }
    PrunedStep(aged, Total(files), None);
    PrunedStop([later], Total(files) - active.size, None);
  }

  // ----- A session started from idle -----

  /** Finished files, the size of the part being written, and its size at the last poll that let it grow. */
  datatype Disk = Disk(files: seq<File>, active: nat, polled: nat)

  datatype Action =
    | Write(n: nat)
    | PollUnder
    | Rotate(name: string, mtime: int)
    | Delete(i: nat)

  /** At most `burst` bytes are written between a poll that keeps the part and its closing. */
  ghost predicate Enabled(d: Disk, a: Action, burst: nat) {
    match a
    case Write(n) => d.active + n <= d.polled + burst
    case PollUnder => d.active < ROTATE_BYTES
    case Rotate(_, _) => true
    case Delete(i) => i < |d.files|
  }

  function Step(d: Disk, a: Action): Disk {
    match a
    case Write(n) => d.(active := d.active + n)
    case PollUnder => d.(polled := d.active)
    case Rotate(name, mtime) => Disk(Prune(d.files + [File(name, d.active, mtime, true, true)], None), 0, 0)
    case Delete(i) => if i < |d.files| then d.(files := d.files[..i] + d.files[i + 1..]) else d
  }

  ghost predicate EnabledRun(d: Disk, actions: seq<Action>, burst: nat)
    decreases |actions|
  {
    actions == [] || (Enabled(d, actions[0], burst) && EnabledRun(Step(d, actions[0]), actions[1..], burst))
  }

  function Run(d: Disk, actions: seq<Action>): Disk
    decreases |actions|
  {
    if actions == [] then d else Run(Step(d, actions[0]), actions[1..])
  }

  ghost predicate Within(d: Disk, burst: nat) {
    && AllAccessible(d.files) && Total(d.files) <= MAX_TOTAL_BYTES
    && d.active <= d.polled + burst && (d.polled < ROTATE_BYTES)
  }

  lemma StepWithin(d: Disk, a: Action, burst: nat)
    requires Within(d, burst) && Enabled(d, a, burst)
    ensures Within(Step(d, a), burst)
  {
    match a
    case Rotate(name, mtime) => PruneFitsCap(d.files + [File(name, d.active, mtime, true, true)]);
    case Delete(i) =>
      TotalSplit(d.files[..i], d.files[i + 1..]);
      TotalSplit(d.files[..i], d.files[i..]);
      assert d.files == d.files[..i] + d.files[i..] && d.files[i..][1..] == d.files[i + 1..];
    case _ =>
  }

  lemma {:induction false} RunWithin(d: Disk, actions: seq<Action>, burst: nat)
    requires Within(d, burst) && EnabledRun(d, actions, burst)
    ensures Within(Run(d, actions), burst)
    decreases |actions|
  {
    if actions != [] {
      StepWithin(d, actions[0], burst);
      RunWithin(Step(d, actions[0]), actions[1..], burst);
    }
  }

  /**
   A session started from idle over any old files, through any number of rotations, never stores more
   than the cap, one full part, and what tcpdump writes between two polls.
   */
  lemma StorageIsBounded(oldFiles: seq<File>, actions: seq<Action>, burst: nat)
    requires AllAccessible(oldFiles)
    requires EnabledRun(Disk(Prune(oldFiles, None), 0, 0), actions, burst)
    ensures var d := Run(Disk(Prune(oldFiles, None), 0, 0), actions);
            Total(d.files) + d.active <= 1_000_000_000 + 100_000_000 + burst
  {
    PruneFitsCap(oldFiles);
    RunWithin(Disk(Prune(oldFiles, None), 0, 0), actions, burst);
  }

  // ----- What a session leaves -----

  function Written(actions: seq<Action>): (n: nat)
    decreases |actions|
  {
    if actions == [] then 0 else (if actions[0].Write? then actions[0].n else 0) + Written(actions[1..])
  }

  ghost predicate NoDelete(actions: seq<Action>) {
    forall i :: 0 <= i < |actions| ==> !actions[i].Delete?
  }

  lemma RotateKeepsAll(d: Disk, name: string, mtime: int)
    requires AllAccessible(d.files) && Total(d.files) + d.active <= 1_000_000_000
    ensures var r := Step(d, Rotate(name, mtime));
            && multiset(r.files) == multiset(d.files) + multiset{File(name, d.active, mtime, true, true)}
            && AllAccessible(r.files) && Total(r.files) == Total(d.files) + d.active && r.active == 0
  {
    hide ByAge;
    var part := File(name, d.active, mtime, true, true);
    var files := d.files + [part];
    TotalSplit(d.files, [part]);
    assert Total([part]) == part.size by { assert [part][1..] == []; }
    ByAgeTotal(files);
    AccessibleCounted(files);
    PrunedStop(ByAge(files), Counted(files), None);
    PruneFitsCap(files);
  }

  /**
   As long as what is stored and what the session writes fit under the cap and nobody deletes a file,
   no byte and no file is lost: every old file is still there, and the rest of the space is what was written.
   */
  lemma {:induction false} NothingLostUnderCap(d: Disk, actions: seq<Action>)
    requires AllAccessible(d.files) && NoDelete(actions)
    requires Total(d.files) + d.active + Written(actions) <= 1_000_000_000
    ensures var r := Run(d, actions);
            Total(r.files) + r.active == Total(d.files) + d.active + Written(actions) && multiset(d.files) <= multiset(r.files)
    decreases |actions|
  {
    if actions != [] {
      var a := actions[0];
      if a.Rotate? {
        RotateKeepsAll(d, a.name, a.mtime);
      }
      NothingLostUnderCap(Step(d, a), actions[1..]);
    }
  }

  /** Deleting a file takes that file and no other. */
  lemma DeleteTakesOne(d: Disk, i: nat)
    requires i < |d.files|
    ensures multiset(Step(d, Delete(i)).files) + multiset{d.files[i]} == multiset(d.files)
    ensures Step(d, Delete(i)).active == d.active && Step(d, Delete(i)).polled == d.polled
  {
    assert d.files == d.files[..i] + [d.files[i]] + d.files[i + 1..];
  }

  /** The bytes that may be written are counted from the last poll that let the part grow. */
  lemma PollOpensBurst(d: Disk, n: nat, burst: nat)
    requires Enabled(d, PollUnder, burst)
    ensures d.active < 100_000_000
    ensures Enabled(Step(d, PollUnder), Write(n), burst) <==> n <= burst
  {
  }

  // ----- `_prune_oldest` -----

  class CaptureDir {
    var files: seq<File>

    constructor (listing: seq<File>)
      ensures files == listing
    {
      files := listing;
    }

    /** `listed` says whether the directory is there and its files can be listed by age. */
    method PruneOldest(protect: Option<string>, listed: bool)
      modifies this
      ensures files == if listed then Prune(old(files), protect) else old(files)
    {
      if !listed {
        return;
      }
      var aged := ByAge(files);
      ByAgeTotal(files);
      var total := StoredBytes(aged);
      files := DeleteOldest(aged, total, protect);
    }
  }

  /** The deleting loop. */
  method DeleteOldest(aged: seq<File>, stored: int, protect: Option<string>) returns (kept: seq<File>)
    ensures kept == Pruned(aged, stored, protect)
  {
    hide Pruned, Deletable;
    var total := stored;
    kept := [];
    var i := 0;
    while i < |aged| && total > MAX_TOTAL_BYTES
      invariant 0 <= i <= |aged|
      invariant kept + Pruned(aged[i..], total, protect) == Pruned(aged, stored, protect)
    {
      PrunedStep(aged[i..], total, protect);
      assert aged[i..][1..] == aged[i + 1..];
      if Deletable(aged[i], protect) {
        total := total - aged[i].size;
      } else {
        KeptBehind(kept, aged[i], Pruned(aged[i + 1..], total, protect));
        kept := kept + [aged[i]];
      }
      i := i + 1;
    }
    PrunedStop(aged[i..], total, protect);
    kept := kept + aged[i..];
  }

  lemma KeptBehind(kept: seq<File>, f: File, rest: seq<File>)
    ensures kept + ([f] + rest) == kept + [f] + rest
  {
  }

  lemma PrunedStep(files: seq<File>, total: int, protect: Option<string>)
    requires files != [] && total > MAX_TOTAL_BYTES
    ensures Pruned(files, total, protect) ==
            if Deletable(files[0], protect) then Pruned(files[1..], total - files[0].size, protect)
            else [files[0]] + Pruned(files[1..], total, protect)
  {
  }

  lemma PrunedStop(files: seq<File>, total: int, protect: Option<string>)
    requires files == [] || total <= MAX_TOTAL_BYTES
    ensures Pruned(files, total, protect) == files
  {
  }

  method StoredBytes(files: seq<File>) returns (total: nat)
    ensures total == Counted(files)
  {
    total := 0;
    for i := 0 to |files|
      invariant total + Counted(files[i..]) == Counted(files)
    {
      assert files[i..][1..] == files[i + 1..];
      if files[i].counted {
        total := total + files[i].size;
      }
    }
  }
}
