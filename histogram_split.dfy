/** The histogram-based train/validation splitter: loading the image listing
    with its label files, the 70 % training target, the greedy walk over the
    nearest-neighbour ranking table, and the ascending validation complement.
    The colour histograms, their Euclidean distances and the per-row argsort
    are computed by foreign libraries; the ranking table they produce is an
    input here. */
module HistogramSplit {
  import opened Common

  // ---------------------------------------------------------------------
  // Loading: image listing, label lookup, label text
  // ---------------------------------------------------------------------

  datatype LoadError =
    | MissingLabel(name: string)  // `open` of the derived label path raised
    | EmptyInput                  // no image survived loading

  datatype Dataset = Dataset(names: seq<string>, labels: seq<string>)

  /** One derived label path: the file name with every `ext` replaced by
      `.txt`, joined under the labels folder, backslashes turned into `/`. */
  function LabelCandidate(labelsFolder: string, filename: string, ext: string): string
    requires ext != []
  {
    Slashes(PathJoin(labelsFolder, Replace(filename, ext, ".txt")))
  }

  /** The label path the loader opens: the `.png`-derived path if it exists,
      the `.jpg`-derived one otherwise (whether or not that one exists). */
  function LabelPath(labelsFolder: string, filename: string, fileExists: string -> bool): (p: string)
    ensures p == LabelCandidate(labelsFolder, filename, ".png") || p == LabelCandidate(labelsFolder, filename, ".jpg")
    ensures NoBackslash(p)
  {
    SlashesNormalises(PathJoin(labelsFolder, Replace(filename, ".png", ".txt")));
    SlashesNormalises(PathJoin(labelsFolder, Replace(filename, ".jpg", ".txt")));
    var first := LabelCandidate(labelsFolder, filename, ".png");
    if fileExists(first) then first else LabelCandidate(labelsFolder, filename, ".jpg")
  }

  /** The path opened is always one of the two candidates, tried in order,
      and it exists exactly when one of the two does. */
  lemma LabelPathFallback(labelsFolder: string, filename: string, fileExists: string -> bool)
    ensures var first := LabelCandidate(labelsFolder, filename, ".png");
            var second := LabelCandidate(labelsFolder, filename, ".jpg");
            var p := LabelPath(labelsFolder, filename, fileExists);
            && (fileExists(first) ==> p == first)
            && (!fileExists(first) ==> p == second)
            && (fileExists(p) <==> fileExists(first) || fileExists(second))
            && NoBackslash(p)
  {
  }

  /** For `stem.png` whose only `.png` is the extension, the first candidate
      is `stem.txt` under the labels folder. */
  lemma LabelCandidateOfPng(labelsFolder: string, stem: string)
    requires forall k: nat :: k < |stem| ==> !MatchAt(stem + ".png", ".png", k)
    ensures LabelCandidate(labelsFolder, stem + ".png", ".png")
         == Slashes(PathJoin(labelsFolder, stem + ".txt"))
  {
    ReplaceFinal(stem, ".png", ".txt");
  }

  /** The label text kept for an image: `read().strip()` with backslashes
      turned into `/`. */
  function LabelText(content: string): string {
    Slashes(Strip(content))
  }

  /** The kept label text is the file's content with only its surrounding
      whitespace removed and backslashes turned into `/`: it has no
      backslash and no whitespace at either end. */
  lemma LabelTextClean(content: string)
    ensures var t := LabelText(content);
            NoBackslash(t) && (t == [] || (!IsSpace(t[0]) && !IsSpace(t[|t| - 1])))
    ensures exists i: nat, j: nat ::
              i <= j <= |content| && LabelText(content) == Slashes(content[i..j])
              && AllSpaceIn(content, 0, i) && AllSpaceIn(content, j, |content|)
  {
    SlashesNormalises(Strip(content));
    SlashesAt(Strip(content));
    var i, j := StripBounds(content);
  }

  /** The lookup the loader applies to every file name: the folder and the
      existence test fixed, `LabelPath` as a function of the name. */
  function LabelPaths(labelsFolder: string, fileExists: string -> bool): string -> string {
    name => LabelPath(labelsFolder, name, fileExists)
  }

  /** The label text the loader keeps for image `name`. */
  function LabelOf(labelPath: string -> string, name: string, read: string -> string): string {
    LabelText(read(labelPath(name)))
  }

  /** The listing entries that `cv2.imread` decodes, in listing order. */
  function Decodable(listing: seq<string>, decodes: string -> bool): (r: seq<string>)
    ensures |r| <= |listing|
  {
    if listing == [] then []
    else
      var front := listing[..|listing| - 1];
      var last := listing[|listing| - 1];
      Decodable(front, decodes) + (if decodes(last) then [last] else [])
  }

  /** The label path derived for `name` exists, so opening it succeeds. */
  predicate HasLabel(labelPath: string -> string, name: string, fileExists: string -> bool) {
    fileExists(labelPath(name))
  }

  /** Every decodable entry of `names` has a label file at its derived path. */
  predicate AllLabelled(labelPath: string -> string, names: seq<string>, decodes: string -> bool,
                        fileExists: string -> bool)
  {
    names == [] ||
      var last := names[|names| - 1];
      && AllLabelled(labelPath, names[..|names| - 1], decodes, fileExists)
      && (decodes(last) ==> HasLabel(labelPath, last, fileExists))
  }

  /** Being labelled is a property of every entry: it holds of a listing
      exactly when no decodable entry lacks its label. */
  lemma {:induction false} AllLabelledAt(labelPath: string -> string, names: seq<string>,
                                         decodes: string -> bool, fileExists: string -> bool)
    ensures AllLabelled(labelPath, names, decodes, fileExists) <==>
      forall j :: 0 <= j < |names| && decodes(names[j]) ==> HasLabel(labelPath, names[j], fileExists)
  {
    if names != [] {
      var front := names[..|names| - 1];
      AllLabelledAt(labelPath, front, decodes, fileExists);
      assert forall j :: 0 <= j < |front| ==> front[j] == names[j];
    }
  }

  /** The loading loop: an entry that does not decode is skipped; a decoded
      entry whose label path does not exist aborts the whole run. The label
      lookup is `labelPath`, which `DistributeImages` fixes to `LabelPaths`. */
  method LoadDataset(labelPath: string -> string, listing: seq<string>, decodes: string -> bool,
                     fileExists: string -> bool, read: string -> string)
    returns (r: Result<Dataset, LoadError>)
    ensures r.Ok? <==> AllLabelled(labelPath, listing, decodes, fileExists)
    ensures r.Ok? ==>
      && r.value.names == Decodable(listing, decodes)
      && |r.value.labels| == |r.value.names|
      && forall i :: 0 <= i < |r.value.names| ==>
           r.value.labels[i] == LabelOf(labelPath, r.value.names[i], read)
    ensures r.Err? ==>
      exists k :: && 0 <= k < |listing|
                  && decodes(listing[k])
                  && !HasLabel(labelPath, listing[k], fileExists)
                  && AllLabelled(labelPath, listing[..k], decodes, fileExists)
                  && r.error == MissingLabel(listing[k])
  {
    var names: seq<string> := [];
    var labels: seq<string> := [];
    var k := 0;
    while k < |listing|
      invariant 0 <= k <= |listing|
      invariant AllLabelled(labelPath, listing[..k], decodes, fileExists)
      invariant names == Decodable(listing[..k], decodes)
      invariant |labels| == |names|
      invariant forall i :: 0 <= i < |names| ==> labels[i] == LabelOf(labelPath, names[i], read)
    {
      var filename := listing[k];
      assert listing[..k + 1][..k] == listing[..k];
      assert Decodable(listing[..k + 1], decodes)
          == Decodable(listing[..k], decodes) + (if decodes(filename) then [filename] else []);
      if decodes(filename) {
        if !HasLabel(labelPath, filename, fileExists) {
          AllLabelledAt(labelPath, listing, decodes, fileExists);
          return Err(MissingLabel(filename));
        }
        names := names + [filename];
        labels := labels + [LabelOf(labelPath, filename, read)];
      }
      k := k + 1;
    }
    assert listing[..k] == listing;
    r := Ok(Dataset(names, labels));
  }

  // ---------------------------------------------------------------------
  // The training target
  // ---------------------------------------------------------------------

  /** `int(n * 0.7)`, plus one when that falls short of `0.7 * n`, in exact
      decimal arithmetic: the smallest count that is at least 70 % of `n`. */
  function TrainTarget(n: nat): (t: nat)
    ensures 7 * n <= 10 * t < 7 * n + 10
    ensures t <= n
  {
    var truncated := (7 * n) / 10;
    if 10 * truncated < 7 * n then truncated + 1 else truncated
  }

  lemma TrainTargetExamples()
    ensures TrainTarget(1) == 1 && TrainTarget(2) == 2 && TrainTarget(3) == 3
    ensures TrainTarget(10) == 7 && TrainTarget(0) == 0
  {
  }

  // ---------------------------------------------------------------------
  // The ranking table and the greedy training selection
  // ---------------------------------------------------------------------

  predicate Distinct(row: seq<nat>) {
    forall i, j :: 0 <= i < j < |row| ==> row[i] != row[j]
  }

  /** One row of the argsort table: a permutation of `0 .. n-1`. */
  predicate IsRankingRow(row: seq<nat>, n: nat) {
    && |row| == n
    && (forall i :: 0 <= i < n ==> row[i] < n)
    && Distinct(row)
  }

  /** An `n` by `n` table whose every row is a permutation of `0 .. n-1`. */
  predicate IsRankingTable(ranking: seq<seq<nat>>, n: nat) {
    |ranking| == n && forall r :: 0 <= r < n ==> IsRankingRow(ranking[r], n)
  }

  function Elems(s: seq<nat>): set<nat> {
    set x | x in s
  }

  /** Every index in `s` lies below `n`. */
  predicate Below(s: set<nat>, n: nat) {
    forall x :: x in s ==> x < n
  }

  /** The members of `s` below `i`. */
  function ChosenBelow(s: set<nat>, i: nat): set<nat> {
    set x | x in s && x < i
  }

  /** The first `k` entries of a row are `k` distinct indices. */
  lemma {:induction false} RowPrefixSize(row: seq<nat>, k: nat)
    requires Distinct(row)
    requires k <= |row|
    ensures |Elems(row[..k])| == k
  {
    if k > 0 {
      RowPrefixSize(row, k - 1);
      var front := row[..k - 1];
      var x := row[k - 1];
      assert Elems(row[..k]) == Elems(front) + {x} by {
        assert row[..k] == front + [x];
      }
      assert x !in Elems(front) by {
        forall i | 0 <= i < k - 1 ensures front[i] != x {
          assert front[i] == row[i];
        }
      }
    }
  }

  /** The first `k` entries of a row are `k` distinct indices below `n`. */
  lemma RowPrefixElems(row: seq<nat>, n: nat, k: nat)
    requires IsRankingRow(row, n)
    requires k <= n
    ensures |Elems(row[..k])| == k
    ensures Below(Elems(row[..k]), n)
  {
    RowPrefixSize(row, k);
    forall x | x in Elems(row[..k]) ensures x < n {
      var i :| 0 <= i < k && row[..k][i] == x;
      assert row[i] == x;
    }
  }

  /** Walking one more entry of a row with distinct entries meets an index
      not chosen before. */
  lemma RowStep(row: seq<nat>, j: nat)
    requires Distinct(row)
    requires j < |row|
    ensures row[j] !in Elems(row[..j])
    ensures Elems(row[..j + 1]) == Elems(row[..j]) + {row[j]}
  {
    assert row[..j + 1] == row[..j] + [row[j]];
    forall i | 0 <= i < j ensures row[..j][i] != row[j] {
      assert row[..j][i] == row[i];
    }
  }

  /** One pass of the inner `for` loop over a ranking row, entered with
      nothing chosen yet: indices not yet chosen are added in row order and
      the pass breaks once `target` are chosen. As the row is a permutation,
      that happens after exactly its first `target` entries. */
  method WalkRow(row: seq<nat>, n: nat, target: nat) returns (train: set<nat>)
    requires IsRankingRow(row, n)
    requires 0 < target <= n
    ensures train == Elems(row[..target])
    ensures |train| == target && Below(train, n)
  {
    train := {};
    var j := 0;
    while j < |row|
      invariant 0 <= j < target
      invariant train == Elems(row[..j])
      invariant |train| == j
    {
      var idx := row[j];
      RowStep(row, j);
      if idx !in train {
        train := train + {idx};
        if |train| >= target {
          break;
        }
      }
      j := j + 1;
    }
    RowPrefixElems(row, n, target);
  }

  /** The greedy loop. Starting from the last row of the table, each row is
      walked until `target` indices are chosen; then the row index is
      decremented and the loop condition re-checked. Because every row is a
      permutation, the first walk already completes the choice: the training
      set is the first `target` entries of row `n-1`, and the row index is
      decremented at most once. */
  method SelectTrain(ranking: seq<seq<nat>>, n: nat, target: nat)
    returns (train: set<nat>, currentIdx: int)
    requires IsRankingTable(ranking, n)
    requires target <= n
    ensures |train| == target
    ensures Below(train, n)
    ensures target > 0 ==> train == Elems(ranking[n - 1][..target])
    ensures currentIdx == if target == 0 then n - 1 else n - 2
  {
    train := {};
    currentIdx := n - 1;
    while |train| < target
      invariant currentIdx == n - 1 ==> train == {}
      invariant currentIdx != n - 1 ==>
        && target > 0 && currentIdx == n - 2 && |train| == target && Below(train, n)
        && train == Elems(ranking[n - 1][..target])
      decreases currentIdx + 1
    {
      assert currentIdx == n - 1;
      train := WalkRow(ranking[currentIdx], n, target);
      currentIdx := currentIdx - 1;
    }
  }

  // ---------------------------------------------------------------------
  // The validation complement
  // ---------------------------------------------------------------------

  predicate StrictlyAscending(s: seq<nat>) {
    forall a, b :: 0 <= a < b < |s| ==> s[a] < s[b]
  }

  /** The indices below `i` that are not in `train`, in ascending order. */
  function Complement(i: nat, train: set<nat>): (c: seq<nat>)
    ensures |c| <= i
  {
    if i == 0 then [] else Complement(i - 1, train) + (if i - 1 in train then [] else [i - 1])
  }

  /** The complement holds exactly the indices below `i` outside `train`,
      each once, in strictly ascending order. */
  lemma {:induction false} ComplementMembers(i: nat, train: set<nat>)
    ensures forall x: nat :: x in Complement(i, train) <==> x < i && x !in train
    ensures StrictlyAscending(Complement(i, train))
  {
    if i > 0 {
      ComplementMembers(i - 1, train);
      var prev := Complement(i - 1, train);
      var c := Complement(i, train);
      assert c == prev + (if i - 1 in train then [] else [i - 1]);
      forall a, b | 0 <= a < b < |c| ensures c[a] < c[b] {
        assert c[a] == prev[a] && prev[a] in prev;
        if b == |prev| {
          assert prev[a] < i - 1;
          assert c[b] == i - 1;
        } else {
          assert c[b] == prev[b];
          assert prev[a] < prev[b];
        }
      }
    }
  }

  lemma {:induction false} ComplementPrefix(i: nat, k: nat, train: set<nat>)
    requires i <= k
    ensures Complement(i, train) <= Complement(k, train)
    decreases k - i
  {
    if i < k {
      ComplementPrefix(i, k - 1, train);
    }
  }

  /** The complement has one entry for each index below `i` outside `train`. */
  lemma {:induction false} ComplementLength(i: nat, train: set<nat>)
    ensures |Complement(i, train)| + |ChosenBelow(train, i)| == i
  {
    if i > 0 {
      ComplementLength(i - 1, train);
      ChosenBelowStep(i, train);
    }
  }

  /** Extending the range by `i - 1` adds it to the chosen indices below the
      bound exactly when it is chosen. */
  lemma ChosenBelowStep(i: nat, train: set<nat>)
    requires i > 0
    ensures |ChosenBelow(train, i)| == |ChosenBelow(train, i - 1)| + (if i - 1 in train then 1 else 0)
  {
    var below := ChosenBelow(train, i - 1);
    assert i - 1 !in below;
    if i - 1 in train {
      assert ChosenBelow(train, i) == below + {i - 1};
    } else {
      assert ChosenBelow(train, i) == below;
    }
  }

  function Min(a: nat, b: nat): nat { if a <= b then a else b }
  function Max(a: nat, b: nat): nat { if a <= b then b else a }

  /** The validation loop: ascending indices outside `train` are appended,
      and the loop stops once the list has reached `cap` entries. The length
      check comes after the append, so a `cap` of 0 still admits one index. */
  method CollectValid(n: nat, train: set<nat>, cap: nat) returns (valid: seq<nat>)
    ensures var c := Complement(n, train); valid == c[..Min(|c|, Max(cap, 1))]
  {
    valid := [];
    var idx := 0;
    while idx < n
      invariant 0 <= idx <= n
      invariant valid == Complement(idx, train)
      invariant |valid| < Max(cap, 1)
    {
      if idx !in train {
        valid := valid + [idx];
        if |valid| >= cap {
          CappedPrefix(idx + 1, n, train, valid, cap);
          break;
        }
      }
      idx := idx + 1;
    }
  }

  /** The break of the validation loop: the list collected so far is the
      capped prefix of the full complement. */
  lemma CappedPrefix(i: nat, n: nat, train: set<nat>, valid: seq<nat>, cap: nat)
    requires i <= n
    requires valid == Complement(i, train)
    requires 1 <= |valid| <= Max(cap, 1) && cap <= |valid|
    ensures var c := Complement(n, train); valid == c[..Min(|c|, Max(cap, 1))]
  {
    ComplementPrefix(i, n, train);
    var c := Complement(n, train);
    assert |valid| == Max(cap, 1);
    assert valid == c[..|valid|];
  }

  // ---------------------------------------------------------------------
  // The whole selection
  // ---------------------------------------------------------------------

  /** Training and validation indices for `n` images ranked by `ranking`:
      the training set holds exactly the target count, validation holds the
      rest in ascending order, and together they partition `0 .. n-1`. */
  method SplitIndices(ranking: seq<seq<nat>>, n: nat) returns (train: set<nat>, valid: seq<nat>)
    requires IsRankingTable(ranking, n)
    ensures |train| == TrainTarget(n)
    ensures |valid| == n - TrainTarget(n)
    ensures train !! Elems(valid)
    ensures forall x: nat :: x < n <==> x in train || x in valid
    ensures StrictlyAscending(valid)
    ensures n > 0 ==> train == Elems(ranking[n - 1][..TrainTarget(n)])
  {
    var numTrain := TrainTarget(n);
    var numValid := n - numTrain;
    var lastRow;
    train, lastRow := SelectTrain(ranking, n, numTrain);
    valid := CollectValid(n, train, numValid);
    ComplementLength(n, train);
    assert ChosenBelow(train, n) == train;
    ghost var c := Complement(n, train);
    ComplementMembers(n, train);
    assert |c| == numValid;
    assert valid == c;
    forall x: nat | x < n ensures x in train || x in valid {
      if x !in train {
        assert x in c;
      }
    }
  }

  datatype Split = Split(dataset: Dataset, train: set<nat>, valid: seq<nat>)

  /** `distribute_images` up to the copy phase: load the listing, then split
      the loaded images by the ranking table computed for them. */
  method DistributeImages(labelsFolder: string, listing: seq<string>, decodes: string -> bool,
                          fileExists: string -> bool, read: string -> string,
                          ranking: seq<seq<nat>>)
    returns (r: Result<Split, LoadError>)
    requires IsRankingTable(ranking, |Decodable(listing, decodes)|)
    ensures var labelPath := LabelPaths(labelsFolder, fileExists);
      r.Err? && r.error.MissingLabel? <==> !AllLabelled(labelPath, listing, decodes, fileExists)
    ensures var labelPath := LabelPaths(labelsFolder, fileExists);
      r == Err(EmptyInput) <==>
        AllLabelled(labelPath, listing, decodes, fileExists) && Decodable(listing, decodes) == []
    ensures r.Ok? ==>
      var n := |Decodable(listing, decodes)|;
      && r.value.dataset.names == Decodable(listing, decodes)
      && |r.value.dataset.labels| == n
      && (forall i :: 0 <= i < n ==>
            r.value.dataset.labels[i]
            == LabelOf(LabelPaths(labelsFolder, fileExists), r.value.dataset.names[i], read))
      && |r.value.train| == TrainTarget(n)
      && |r.value.valid| == n - TrainTarget(n)
      && r.value.train !! Elems(r.value.valid)
      && (forall x: nat :: x < n <==> x in r.value.train || x in r.value.valid)
      && StrictlyAscending(r.value.valid)
      && r.value.train == Elems(ranking[n - 1][..TrainTarget(n)])
  {
    var loaded := LoadDataset(LabelPaths(labelsFolder, fileExists), listing, decodes, fileExists, read);
    if loaded.Err? {
      return Err(loaded.error);
    }
    var dataset := loaded.value;
    var n := |dataset.names|;
    if n == 0 {
      return Err(EmptyInput);
    }
    var train, valid := SplitIndices(ranking, n);
    r := Ok(Split(dataset, train, valid));
  }
}
