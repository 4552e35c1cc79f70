/** Pasting an infrared (IR) crop onto a background picture: the IR image is
    halved, halved once more when it still does not fit, and placed at a
    random position that keeps it inside the background horizontally and in
    its lower two thirds vertically. Image sizes are pairs of pixel counts;
    the random positions are supplied by the caller. */
module Superposition {
  import opened Common

  /** A PIL image size, `(width, height)`. */
  datatype Size = Size(width: nat, height: nat)

  /** `img.resize((w // 2, h // 2))`, as far as the size goes. */
  function Half(s: Size): Size {
    Size(s.width / 2, s.height / 2)
  }

  /** The IR image is wider or taller than the background. */
  predicate Exceeds(ir: Size, bg: Size) {
    ir.width > bg.width || ir.height > bg.height
  }

  /** The size the IR image is pasted at: at most half the original. */
  function ScaledIr(ir: Size, bg: Size): (s: Size)
    ensures 2 * s.width <= ir.width && 2 * s.height <= ir.height
  {
    var once := Half(ir);
    if Exceeds(once, bg) then Half(once) else once
  }

  /** The IR image is halved once, and a second time exactly when the halved
      image still exceeds the background; halving twice is taking a quarter. */
  lemma ScaledIrHalvings(ir: Size, bg: Size)
    ensures var s := ScaledIr(ir, bg);
            && (s == Size(ir.width / 2, ir.height / 2) <==> !Exceeds(Size(ir.width / 2, ir.height / 2), bg))
            && (Exceeds(Size(ir.width / 2, ir.height / 2), bg) ==> s == Size(ir.width / 4, ir.height / 4))
            && 2 * s.width <= ir.width && 2 * s.height <= ir.height
  {
    var s := ScaledIr(ir, bg);
    var once := Half(ir);
    if Exceeds(once, bg) {
      assert once.width / 2 == ir.width / 4 && once.height / 2 == ir.height / 4;
      assert s != once by {
        if once.width > bg.width {
          assert s.width < once.width;
        } else {
          assert s.height < once.height;
        }
      }
    }
  }

  /** An IR image at most twice the background in each direction always ends
      up inside it, and one at most four times the background does too. */
  lemma ScaledIrFits(ir: Size, bg: Size)
    requires ir.width <= 4 * bg.width + 3 && ir.height <= 4 * bg.height + 3
    ensures !Exceeds(ScaledIr(ir, bg), bg)
  {
  }

  /** `random.randint(low, high)`: `ValueError` on an empty range, otherwise
      the value the generator picked. */
  datatype ValueError =
    | EmptyRange(low: int, high: int)
    | BadTransparencyMask
    | UnknownExtension

  function RandInt(low: int, high: int, pick: int): (r: Result<int, ValueError>)
    requires low <= high ==> low <= pick <= high
    ensures r.Ok? <==> low <= high
    ensures r.Ok? ==> low <= r.value <= high
  {
    if low > high then Err(EmptyRange(low, high)) else Ok(pick)
  }

  /** PIL image modes, as far as `paste` tells them apart. */
  datatype Mode = Bilevel | Grey | GreyAlpha | Rgb | Rgba | RgbaPremultiplied | Palette | OtherMode

  /** The modes `paste` accepts as a transparency mask (`1`, `L`, `LA`,
      `RGBA`, `RGBa`); any other mask raises `ValueError`. `resize` keeps
      the mode, so the IR image as opened decides. */
  predicate MaskMode(m: Mode) {
    m.Bilevel? || m.Grey? || m.GreyAlpha? || m.Rgba? || m.RgbaPremultiplied?
  }

  /** Where the IR image goes and at what size. */
  datatype Placement = Placement(scaled: Size, x: int, y: int)

  /** The random picks lie in the ranges `randint` is called with, whenever
      it is called with a non-empty one. */
  predicate PicksInRange(ir: Size, bg: Size, pickX: int, pickY: int) {
    var s := ScaledIr(ir, bg);
    && (s.width <= bg.width ==> 0 <= pickX <= bg.width - s.width)
    && (s.height <= bg.height && bg.height / 3 <= bg.height - s.height ==>
          bg.height / 3 <= pickY <= bg.height - s.height)
  }

  /** `superposition_cut`: the IR size and the paste position, or the
      `ValueError` of `randint` or of `paste`, which uses the IR image, of
      mode `mode`, as its own mask. */
  function Superpose(ir: Size, mode: Mode, bg: Size, pickX: int, pickY: int): (r: Result<Placement, ValueError>)
    requires PicksInRange(ir, bg, pickX, pickY)
    ensures r.Ok? ==> r.value.scaled == ScaledIr(ir, bg) && MaskMode(mode)
    ensures r.Err? ==> r.error.EmptyRange? || r.error.BadTransparencyMask?
  {
    var s := ScaledIr(ir, bg);
    var x := if bg.width < s.width then Ok(0) else RandInt(0, bg.width - s.width, pickX);
    var y := if bg.height < s.height then Ok(0) else RandInt(bg.height / 3, bg.height - s.height, pickY);
    assert x.Ok?;  // the horizontal range is never empty
    if y.Err? then Err(y.error)
    else if !MaskMode(mode) then Err(BadTransparencyMask)
    else Ok(Placement(s, x.value, y.value))
  }

  /** The horizontal pick never fails. The vertical one fails exactly when
      the IR image is not taller than the background but does not fit below
      its top third, and that error comes first; otherwise the call fails
      exactly when the IR image's mode is no mask mode. */
  lemma SuperposeFails(ir: Size, mode: Mode, bg: Size, pickX: int, pickY: int)
    requires PicksInRange(ir, bg, pickX, pickY)
    ensures var s := ScaledIr(ir, bg);
            var r := Superpose(ir, mode, bg, pickX, pickY);
            var tooLow := s.height <= bg.height && s.height > bg.height - bg.height / 3;
            && (r.Err? <==> tooLow || !MaskMode(mode))
            && (tooLow ==> r == Err(EmptyRange(bg.height / 3, bg.height - s.height)))
            && (!tooLow && !MaskMode(mode) ==> r == Err(BadTransparencyMask))
  {
  }

  /** A successful placement is at size `ScaledIr`; it keeps the IR image
      inside the background along each direction in which it fits, starting
      at or below the top third vertically, and puts it at 0 along each
      direction in which it does not. */
  lemma SuperposePlacement(ir: Size, mode: Mode, bg: Size, pickX: int, pickY: int)
    requires PicksInRange(ir, bg, pickX, pickY)
    requires Superpose(ir, mode, bg, pickX, pickY).Ok?
    ensures var p := Superpose(ir, mode, bg, pickX, pickY).value;
            && p.scaled == ScaledIr(ir, bg)
            && (p.scaled.width <= bg.width ==> 0 <= p.x && p.x + p.scaled.width <= bg.width)
            && (p.scaled.width > bg.width ==> p.x == 0)
            && (p.scaled.height <= bg.height ==> bg.height / 3 <= p.y && p.y + p.scaled.height <= bg.height)
            && (p.scaled.height > bg.height ==> p.y == 0)
  {
  }

  /** An IR image exactly as tall as the background is not put at the top:
      it goes to `randint(h // 3, 0)`, which fails from a height of 3 on;
      below that it lands at 0 when its mode is a mask mode. */
  lemma EqualHeightFails(ir: Size, mode: Mode, bg: Size, pickX: int, pickY: int)
    requires PicksInRange(ir, bg, pickX, pickY)
    requires ScaledIr(ir, bg).height == bg.height
    ensures bg.height >= 3 ==> Superpose(ir, mode, bg, pickX, pickY) == Err(EmptyRange(bg.height / 3, 0))
    ensures bg.height < 3 && MaskMode(mode) ==>
      Superpose(ir, mode, bg, pickX, pickY).Ok? && Superpose(ir, mode, bg, pickX, pickY).value.y == 0
  {
  }

  // ---------------------------------------------------------------------
  // `process_images`
  // ---------------------------------------------------------------------

  /** POSIX `os.path.basename`: the part after the last `/`. */
  function Basename(path: string): (b: string)
    ensures EndsWith(path, b)
    ensures forall i :: 0 <= i < |b| ==> b[i] != '/'
    ensures |b| == |path| || path[|path| - |b| - 1] == '/'
  {
    if path == [] || path[|path| - 1] == '/' then []
    else Basename(path[..|path| - 1]) + [path[|path| - 1]]
  }

  /** Where the result for an IR image is saved. */
  function OutputPath(outDir: string, irPath: string): string {
    PathJoin(outDir, "superimposition_" + Basename(irPath))
  }

  /** `OutputPath` in the output directory, as the function of the IR path
      the loop uses. */
  function OutputPaths(outDir: string): string -> string {
    irPath => OutputPath(outDir, irPath)
  }

  /** The result for an IR image is saved under its file name with the
      prefix `superimposition_`. */
  lemma OutputPathName(outDir: string, irPath: string)
    ensures EndsWith(OutputPath(outDir, irPath), "superimposition_" + Basename(irPath))
    ensures EndsWith(irPath, Basename(irPath)) && forall i :: 0 <= i < |Basename(irPath)| ==> Basename(irPath)[i] != '/'
  {
  }

  /** One IR image found by the search: whether it is a regular file, its
      size and mode, the size of the background `random.choice` drew for
      it, the two positions `randint` drew, and whether `save` recognises
      the extension of the output name (it raises `ValueError` otherwise). */
  datatype Job = Job(irPath: string, isFile: bool, ir: Size, mode: Mode, bg: Size,
                     pickX: int, pickY: int, knownExtension: bool)

  /** A saved result: its path and the placement it was pasted at. */
  datatype Saved = Saved(path: string, placement: Placement)

  predicate JobPicksInRange(job: Job) {
    PicksInRange(job.ir, job.bg, job.pickX, job.pickY)
  }

  /** `superposition_cut` on the images of one job. */
  function Place(job: Job): Result<Placement, ValueError>
    requires JobPicksInRange(job)
  {
    Superpose(job.ir, job.mode, job.bg, job.pickX, job.pickY)
  }

  /** The body of the `try` for a regular file: `superposition_cut`, then
      `save`; either may raise `ValueError`. */
  function Process(job: Job): (r: Result<Placement, ValueError>)
    requires JobPicksInRange(job)
    ensures r.Ok? <==> Place(job).Ok? && job.knownExtension
    ensures r.Ok? ==> r == Place(job)
  {
    match Place(job)
    case Err(e) => Err(e)
    case Ok(p) => if job.knownExtension then Ok(p) else Err(UnknownExtension)
  }

  /** The results saved for `jobs`, in order: paths that are not regular
      files and images whose `superposition_cut` or `save` raises
      `ValueError` are skipped. `pathOf` gives the path a result is saved
      at, `OutputPaths(outDir)` in the loop itself. */
  function Processed(pathOf: string -> string, jobs: seq<Job>): (saved: seq<Saved>)
    requires forall k :: 0 <= k < |jobs| ==> JobPicksInRange(jobs[k])
    ensures |saved| <= |jobs|
  {
    if jobs == [] then []
    else
      var front := Processed(pathOf, jobs[..|jobs| - 1]);
      var job := jobs[|jobs| - 1];
      if !job.isFile then front
      else
        match Process(job)
        case Err(_) => front
        case Ok(p) => front + [Saved(pathOf(job.irPath), p)]
  }

  /** `process_images`, the loop over the IR images found. */
  method ProcessImages(outDir: string, jobs: seq<Job>) returns (saved: seq<Saved>)
    requires forall k :: 0 <= k < |jobs| ==> JobPicksInRange(jobs[k])
    ensures saved == Processed(OutputPaths(outDir), jobs)
    ensures |saved| <= |jobs|
    ensures (forall k :: 0 <= k < |jobs| ==> jobs[k].isFile && Process(jobs[k]).Ok?) ==>
      |saved| == |jobs| &&
      forall k :: 0 <= k < |jobs| ==>
        saved[k] == Saved(OutputPath(outDir, jobs[k].irPath), Process(jobs[k]).value)
  {
    saved := [];
    var i := 0;
    while i < |jobs|
      invariant 0 <= i <= |jobs|
      invariant saved == Processed(OutputPaths(outDir), jobs[..i])
    {
      assert jobs[..i + 1][..i] == jobs[..i];
      var job := jobs[i];
      if job.isFile {
        var r := Place(job);
        if r.Ok? && job.knownExtension {
          saved := saved + [Saved(OutputPath(outDir, job.irPath), r.value)];
        }
      }
      i := i + 1;
    }
    assert jobs[..i] == jobs;
    ProcessedFromJobs(OutputPaths(outDir), jobs);
    if forall k :: 0 <= k < |jobs| ==> jobs[k].isFile && Process(jobs[k]).Ok? {
      ProcessedNoneSkipped(OutputPaths(outDir), jobs);
    }
  }

  /** Every saved result comes from a regular file whose placement and
      save succeeded, and saving follows the order of the search. */
  lemma {:induction false} ProcessedFromJobs(pathOf: string -> string, jobs: seq<Job>)
    requires forall k :: 0 <= k < |jobs| ==> JobPicksInRange(jobs[k])
    ensures var saved := Processed(pathOf, jobs);
            && |saved| <= |jobs|
            && forall k :: 0 <= k < |saved| ==>
                 exists j :: 0 <= j < |jobs| && jobs[j].isFile
                   && Process(jobs[j]) == Ok(saved[k].placement)
                   && saved[k].path == pathOf(jobs[j].irPath)
  {
    if jobs != [] {
      var front := jobs[..|jobs| - 1];
      ProcessedFromJobs(pathOf, front);
      var before := Processed(pathOf, front);
      var saved := Processed(pathOf, jobs);
      forall k | 0 <= k < |saved|
        ensures exists j :: 0 <= j < |jobs| && jobs[j].isFile
                  && Process(jobs[j]) == Ok(saved[k].placement)
                  && saved[k].path == pathOf(jobs[j].irPath)
      {
        if k < |before| {
          var j :| 0 <= j < |front| && front[j].isFile
                   && Process(front[j]) == Ok(before[k].placement)
                   && before[k].path == pathOf(front[j].irPath);
          assert jobs[j] == front[j] && saved[k] == before[k];
        } else {
          var last := |jobs| - 1;
          assert saved[k] == Saved(pathOf(jobs[last].irPath), Process(jobs[last]).value);
        }
      }
    }
  }

  /** A last job that is a regular file with a successful placement and
      save adds its result at the end. */
  lemma ProcessedSnoc(pathOf: string -> string, jobs: seq<Job>)
    requires jobs != []
    requires forall k :: 0 <= k < |jobs| ==> JobPicksInRange(jobs[k])
    requires jobs[|jobs| - 1].isFile && Process(jobs[|jobs| - 1]).Ok?
    ensures Processed(pathOf, jobs) ==
      Processed(pathOf, jobs[..|jobs| - 1])
      + [Saved(pathOf(jobs[|jobs| - 1].irPath), Process(jobs[|jobs| - 1]).value)]
  {
  }

  /** When every job is a regular file whose placement and save succeed,
      nothing is skipped: one result per job, in the same order. */
  lemma {:induction false} ProcessedNoneSkipped(pathOf: string -> string, jobs: seq<Job>)
    requires forall k :: 0 <= k < |jobs| ==> JobPicksInRange(jobs[k])
    requires forall k :: 0 <= k < |jobs| ==>
      jobs[k].isFile && Process(jobs[k]).Ok?
    ensures var saved := Processed(pathOf, jobs);
            && |saved| == |jobs|
            && forall k :: 0 <= k < |jobs| ==>
                 saved[k] == Saved(pathOf(jobs[k].irPath),
                                   Process(jobs[k]).value)
  {
    if jobs != [] {
      var front := jobs[..|jobs| - 1];
      ProcessedSnoc(pathOf, jobs);
      forall k | 0 <= k < |front|
        ensures front[k].isFile && Process(front[k]).Ok?
      {
        assert front[k] == jobs[k];
      }
      ProcessedNoneSkipped(pathOf, front);
      var saved := Processed(pathOf, jobs);
      var before := Processed(pathOf, front);
      forall k | 0 <= k < |jobs|
        ensures saved[k] == Saved(pathOf(jobs[k].irPath), Process(jobs[k]).value)
      {
        if k < |front| {
          assert front[k] == jobs[k] && saved[k] == before[k];
        }
      }
    }
  }
}
