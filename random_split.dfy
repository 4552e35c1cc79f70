/** The random train/validation splitter: the `.jpg` filter over the
    `images` listing, the training count `int(N * train_percent)`, the two
    slices of the shuffled list, and the copy plan that pairs every image
    with its label file. The shuffle itself is the library's; the shuffled
    list is an input that must be a permutation of the filtered listing. */
module RandomSplit {
  import opened Common

  // ---------------------------------------------------------------------
  // The `.jpg` filter
  // ---------------------------------------------------------------------

  /** The listing entries whose names end in `.jpg`, in listing order. */
  function JpgFiles(listing: seq<string>): (r: seq<string>)
    ensures |r| <= |listing|
  {
    if listing == [] then []
    else
      var last := listing[|listing| - 1];
      JpgFiles(listing[..|listing| - 1]) + (if EndsWith(last, ".jpg") then [last] else [])
  }

  predicate AllJpg(files: seq<string>) {
    forall i :: 0 <= i < |files| ==> EndsWith(files[i], ".jpg")
  }

  /** The filter keeps exactly the `.jpg` names of the listing, and nothing
      else: every kept name ends in `.jpg`. */
  lemma {:induction false} JpgFilesMembers(listing: seq<string>)
    ensures AllJpg(JpgFiles(listing))
    ensures forall x :: x in JpgFiles(listing) <==> x in listing && EndsWith(x, ".jpg")
  {
    if listing != [] {
      var front := listing[..|listing| - 1];
      JpgFilesMembers(front);
      assert listing == front + [listing[|listing| - 1]];
    }
  }

  /** A list of `.jpg` names passes the filter unchanged. */
  lemma {:induction false} JpgFilesOfAllJpg(files: seq<string>)
    requires AllJpg(files)
    ensures JpgFiles(files) == files
  {
    if files != [] {
      var front := files[..|files| - 1];
      JpgFilesOfAllJpg(front);
      assert files == front + [files[|files| - 1]];
    }
  }

  // ---------------------------------------------------------------------
  // The training count and Python slicing
  // ---------------------------------------------------------------------

  /** Python's `int(x)` on a number: truncation toward zero. */
  function TruncToInt(x: real): (r: int)
    ensures x >= 0.0 ==> r as real <= x < r as real + 1.0
    ensures x < 0.0 ==> r as real - 1.0 < x <= r as real
  {
    if x >= 0.0 then x.Floor else -((-x).Floor)
  }

  /** `num_train = int(num_files * train_percent)`. */
  function NumTrain(n: nat, trainPercent: real): (r: int)
    ensures trainPercent >= 0.0 ==> r >= 0
    ensures trainPercent <= 0.0 ==> r <= 0
  {
    TruncToInt(n as real * trainPercent)
  }

  /** For a fraction between 0 and 1 the count lies between 0 and `n`, and
      it is the floor of `n * train_percent`. */
  lemma NumTrainBounds(n: nat, trainPercent: real)
    requires 0.0 <= trainPercent <= 1.0
    ensures 0 <= NumTrain(n, trainPercent) <= n
    ensures NumTrain(n, trainPercent) as real <= n as real * trainPercent
            < NumTrain(n, trainPercent) as real + 1.0
  {
    var x := n as real * trainPercent;
    assert 0.0 <= x <= n as real by {
      assert n as real * (1.0 - trainPercent) >= 0.0;
    }
  }

  /** How Python turns a slice bound `i` into a position in a sequence of
      length `len`: a negative bound counts from the end, and the result is
      clamped into `0 .. len`. */
  function SliceBound(i: int, len: nat): (p: nat)
    ensures p <= len
    ensures 0 <= i <= len ==> p == i
    ensures i < 0 && -i <= len ==> p == len + i
  {
    if i < 0 then (if i + len < 0 then 0 else i + len)
    else if i > len then len
    else i
  }

  /** Python's `s[i:j]` for integer bounds. */
  function Slice<T>(s: seq<T>, i: int, j: int): (r: seq<T>)
    ensures |r| <= |s|
  {
    var a := SliceBound(i, |s|);
    var b := SliceBound(j, |s|);
    if a <= b then s[a..b] else []
  }

  /** The two slices of the split, `files[:k]` and `files[k:k + (N - k)]`,
      put back together give the whole list for EVERY integer `k`, so no file
      is dropped or duplicated whatever `train_percent` is. */
  lemma SlicesCover<T>(s: seq<T>, k: int)
    ensures Slice(s, 0, k) + Slice(s, k, k + (|s| - k)) == s
  {
    var b := SliceBound(k, |s|);
    assert Slice(s, 0, k) == s[..b];
    assert Slice(s, k, |s|) == s[b..];
    assert s[..b] + s[b..] == s;
  }

  /** With `0 <= k <= N` the slices are the first `k` and the remaining
      `N - k` names. */
  lemma SlicesSizes<T>(s: seq<T>, k: int)
    requires 0 <= k <= |s|
    ensures Slice(s, 0, k) == s[..k] && |Slice(s, 0, k)| == k
    ensures Slice(s, k, k + (|s| - k)) == s[k..] && |Slice(s, k, k + (|s| - k))| == |s| - k
  {
  }

  // ---------------------------------------------------------------------
  // Label names and the copy plan
  // ---------------------------------------------------------------------

  /** `file[:-4] + '.txt'`: the last four characters dropped (all of them
      when the name is shorter) and `.txt` appended. */
  function LabelName(file: string): (r: string)
    ensures EndsWith(r, ".txt")
    ensures |file| >= 4 ==> |r| == |file| && r[..|file| - 4] == file[..|file| - 4]
    ensures |file| < 4 ==> r == ".txt"
  {
    Slice(file, 0, -4) + ".txt"
  }

  /** The image `x.jpg` gets the label `x.txt`. */
  lemma LabelNameOfJpg(stem: string)
    ensures LabelName(stem + ".jpg") == stem + ".txt"
  {
    var file := stem + ".jpg";
    assert file[..|file| - 4] == stem;
  }

  /** One `shutil.copy` call of `copy_files`: the image `file`, or the label
      file derived from it. `Source` and `Destination` give its two paths. */
  datatype Copy = CopyImage(file: string) | CopyLabel(file: string)

  /** The file name a copy moves: the image name, or its label name. */
  function CopiedName(c: Copy): string {
    match c
    case CopyImage(file) => file
    case CopyLabel(file) => LabelName(file)
  }

  function Folder(c: Copy): string {
    if c.CopyImage? then "images" else "labels"
  }

  /** `os.path.join(source_dir, folder, name).replace("\\", "/")`. */
  function Source(sourceDir: string, c: Copy): (p: string)
    ensures NoBackslash(p)
  {
    var joined := PathJoin(PathJoin(sourceDir, Folder(c)), CopiedName(c));
    SlashesNormalises(joined);
    Slashes(joined)
  }

  /** `os.path.join(dest_dir, subset, folder, name)`; the `.replace` in the
      source is applied to the return value of `shutil.copy` and discarded,
      so the destination path keeps its backslashes. */
  function Destination(destDir: string, subset: string, c: Copy): (p: string)
    ensures EndsWith(p, CopiedName(c))
  {
    PathJoin(PathJoin(PathJoin(destDir, subset), Folder(c)), CopiedName(c))
  }

  /** The label copy of `x.jpg` reads and writes `x.txt` in the `labels`
      folders. */
  lemma LabelCopyOfJpg(sourceDir: string, destDir: string, subset: string, stem: string)
    ensures var c := CopyLabel(stem + ".jpg");
            && Source(sourceDir, c) == Slashes(PathJoin(PathJoin(sourceDir, "labels"), stem + ".txt"))
            && Destination(destDir, subset, c) == PathJoin(PathJoin(PathJoin(destDir, subset), "labels"), stem + ".txt")
  {
    LabelNameOfJpg(stem);
  }

  /** The copies `copy_files` makes for `files`: an image and then its label
      for every `.jpg` name, in order. */
  function CopyPlan(files: seq<string>): (copies: seq<Copy>)
    ensures |copies| == 2 * |JpgFiles(files)|
  {
    if files == [] then []
    else
      var last := files[|files| - 1];
      CopyPlan(files[..|files| - 1]) + (if EndsWith(last, ".jpg") then [CopyImage(last), CopyLabel(last)] else [])
  }

  /** The copy plan lists, for the `i`-th name that passes the `.jpg` test,
      its image copy at `2 i` and its label copy at `2 i + 1`. */
  lemma {:induction false} CopyPlanAt(files: seq<string>, i: nat)
    requires i < |JpgFiles(files)|
    ensures CopyPlan(files)[2 * i] == CopyImage(JpgFiles(files)[i])
    ensures CopyPlan(files)[2 * i + 1] == CopyLabel(JpgFiles(files)[i])
  {
    var front := files[..|files| - 1];
    var last := files[|files| - 1];
    var jpgs, before := JpgFiles(files), JpgFiles(front);
    var copies, earlier := CopyPlan(files), CopyPlan(front);
    if i < |before| {
      CopyPlanAt(front, i);
      assert jpgs[i] == before[i];
      assert copies[2 * i] == earlier[2 * i] && copies[2 * i + 1] == earlier[2 * i + 1];
    } else {
      assert EndsWith(last, ".jpg") && jpgs[i] == last;
      assert copies == earlier + [CopyImage(last), CopyLabel(last)];
    }
  }

  /** `copy_files(files, subset)`: every name ending in `.jpg` is copied
      together with its label; other names are passed over. */
  method CopyFiles(files: seq<string>) returns (copies: seq<Copy>)
    ensures copies == CopyPlan(files)
  {
    copies := [];
    var k := 0;
    while k < |files|
      invariant 0 <= k <= |files|
      invariant copies == CopyPlan(files[..k])
    {
      var file := files[k];
      assert files[..k + 1][..k] == files[..k];
      if EndsWith(file, ".jpg") {
        copies := copies + [CopyImage(file), CopyLabel(file)];
      }
      k := k + 1;
    }
    assert files[..k] == files;
  }

  // ---------------------------------------------------------------------
  // The whole split
  // ---------------------------------------------------------------------

  datatype Outcome =
    | MissingSource                 // `source_dir` is not a directory
    | NoImages                      // no `.jpg` name in the listing
    | Done(train: seq<string>, valid: seq<string>, trainCopies: seq<Copy>, validCopies: seq<Copy>)

  /** `split_data`: the listing is filtered, shuffled (`shuffled` is the
      order the shuffle produced), cut at `int(N * train_percent)`, and both
      halves are copied. */
  method SplitData(trainPercent: real, isDir: bool, listing: seq<string>, shuffled: seq<string>)
    returns (r: Outcome)
    requires isDir && JpgFiles(listing) != [] ==> multiset(shuffled) == multiset(JpgFiles(listing))
    ensures !isDir <==> r == MissingSource
    ensures r == NoImages <==> isDir && JpgFiles(listing) == []
    ensures r.Done? ==>
      var n := NumTrain(|shuffled|, trainPercent);
      && r.train + r.valid == shuffled
      && r.train == Slice(shuffled, 0, n)
      && r.valid == Slice(shuffled, n, n + (|shuffled| - n))
      && (0.0 <= trainPercent <= 1.0 ==> |r.train| == n && |r.valid| == |shuffled| - n)
      && AllJpg(r.train) && AllJpg(r.valid)
      && r.trainCopies == CopyPlan(r.train)
      && r.validCopies == CopyPlan(r.valid)
      && |r.trainCopies| == 2 * |r.train| && |r.validCopies| == 2 * |r.valid|
  {
    if !isDir {
      return MissingSource;
    }
    var imageFiles := JpgFiles(listing);
    if imageFiles == [] {
      return NoImages;
    }
    var numFiles := |shuffled|;
    var numTrain := NumTrain(numFiles, trainPercent);
    var numValid := numFiles - numTrain;
    var trainFiles := Slice(shuffled, 0, numTrain);
    var validFiles := Slice(shuffled, numTrain, numTrain + numValid);
    SlicesCover(shuffled, numTrain);
    if 0.0 <= trainPercent <= 1.0 {
      NumTrainBounds(numFiles, trainPercent);
      SlicesSizes(shuffled, numTrain);
    }
    ShuffledAllJpg(listing, shuffled, trainFiles, validFiles);
    var trainCopies := CopyFiles(trainFiles);
    var validCopies := CopyFiles(validFiles);
    JpgFilesOfAllJpg(trainFiles);
    JpgFilesOfAllJpg(validFiles);
    r := Done(trainFiles, validFiles, trainCopies, validCopies);
  }

  /** Every name of a permutation of the filtered listing ends in `.jpg`, so
      neither slice loses a file to the second `.jpg` test in `copy_files`. */
  lemma ShuffledAllJpg(listing: seq<string>, shuffled: seq<string>,
                       front: seq<string>, back: seq<string>)
    requires multiset(shuffled) == multiset(JpgFiles(listing))
    requires front + back == shuffled
    ensures AllJpg(front) && AllJpg(back)
  {
    JpgFilesMembers(listing);
    forall i | 0 <= i < |shuffled| ensures EndsWith(shuffled[i], ".jpg") {
      assert shuffled[i] in multiset(shuffled);
    }
    forall i | 0 <= i < |front| ensures EndsWith(front[i], ".jpg") {
      assert front[i] == shuffled[i];
    }
    forall i | 0 <= i < |back| ensures EndsWith(back[i], ".jpg") {
      assert back[i] == shuffled[|front| + i];
    }
  }
}
