# Boat dataset tools and thermal camera control, modelled in Dafny

The repository prepares YOLO datasets of boats and drives the thermal/optical
camera that takes the pictures. This project models the decision logic inside
its scripts:

- **Histogram-based split** (`distribute_images`). The loader finds each
  image's label file, falling back from the `.png`-derived path to the
  `.jpg`-derived one. The training target is `int(0.7 N)` rounded up. A greedy
  walk over the nearest-neighbour ranking table picks the training set, and
  the validation list is the ascending complement (`histogram_split.dfy`).
- **Random split** (`split_data`). The model covers the `.jpg` filter, the
  count `int(N * train_percent)`, the two slices of the shuffled list, and the
  image/label copies `copy_files` makes (`random_split.dfy`).
- **Relabelling** (`modify_to_class_boat`). Each line of each `.txt` label file
  gets `0` as its first token. The model covers the per-file rewrite and its
  `IndexError`, and the pass over the folder that stops at the first
  exception (`class_boat.dfy`).
- **IR superposition** (`superposition_cut`, `process_images`). The IR image
  is halved once or twice, then placed with `randint` positions. The IR
  image is pasted with itself as the transparency mask, which PIL refuses
  for modes such as RGB or palette; `save` refuses an output name whose
  extension names no format. An empty range, a bad mask and an unknown
  extension all raise `ValueError`, and that image is skipped
  (`superposition.dfy`).
- **Border blending** (`expand_with_neighbors` and the prompt loops). The model
  covers the padding split to 500 x 500, and the alpha and 0/1 prompts
  re-asked until an acceptable line comes. The blend loop runs until the user
  answers 0 (`border_blend.dfy`).
- **Camera control** (`get_images.py`):
  - `build_url`, the method dispatch of `send_request` and
    `handle_ptz_response`;
  - the XML body of `updata_preset`;
  - the retry loop of `get_image`: up to five moves to the preset, then
    either the picture or the fallback that rewrites the preset
    (`camera_control.dfy`).

Python's string operations appear in `common.dfy` over `seq<char>`:
- `str.replace` and `str.strip`, plus `split` and `readlines` in
  `class_boat.dfy`;
- POSIX `os.path.join`;
- `str(int)`.

`os.path.basename` is `Superposition.Basename` in `superposition.dfy`.

Foreign results become inputs:
- directory listings, file existence and file contents;
- which images decode;
- the argsort ranking table and the shuffled order;
- `randint` picks;
- what `int()`/`float()` make of console lines;
- the positions ONVIF reports.

Two behaviours of the code worth knowing, both modelled as written:
- `distribute_images` opens the derived label path unconditionally. A decoded
  image with neither label file aborts the whole run with `MissingLabel`; it
  is not skipped. Only images that `cv2.imread` cannot decode are dropped. An
  image whose resize raises is still appended, because the `except` only
  prints.
- `build_url` capitalises the request with `str.capitalize`, so `PTZCtrl`
  appears as `Ptzctrl` in every PTZ URL (`CameraControl.CapitalizePtz`).

## Model

| member | source | states |
|---|---|---|
| Common.SlashesAt | dataset_distribution/change_to_class_boat.py:28 | `replace("\\", "/")` keeps the length, turns every backslash into `/` and leaves every other character as it is |
| Common.SlashesNormalises | dataset_distribution/histogram_distribution_valid_train.py:65 | after the replacement no backslash is left, a second replacement changes nothing, and a string without backslashes is unchanged |
| Common.SlashesAppend | dataset_distribution/change_to_class_boat.py:28 | the replacement distributes over concatenation |
| Common.ReplaceAbsent | dataset_distribution/histogram_distribution_valid_train.py:64 | `str.replace` leaves a string without the pattern unchanged |
| Common.ReplaceFinal | dataset_distribution/histogram_distribution_valid_train.py:64 | when the only occurrence of the pattern is the final one, `replace` swaps just that one (`x.png` becomes `x.txt`) |
| Common.Replace | dataset_distribution/histogram_distribution_valid_train.py:64 | a replacement as long as the pattern keeps the length of the string |
| Common.Strip | dataset_distribution/histogram_distribution_valid_train.py:70 | `strip()` leaves no whitespace at either end and never lengthens the text |
| Common.StripBounds | dataset_distribution/histogram_distribution_valid_train.py:70 | `strip()` is a slice `s[i:j]` of the text, and everything before i and after j is whitespace |
| Common.StripTrims | dataset_distribution/histogram_distribution_valid_train.py:70 | `strip()` is some slice of the text that cuts only whitespace at either end |
| Common.PathJoin | dataset_distribution/random_distribution_valid_train.py:51 | `os.path.join(a, b)` ends with `b`, and starts with `a` when `b` is relative and `a` non-empty |
| Common.IntToString | image_capture/get_images.py:105 | `str(n)` is non-empty and made of digits and a sign |
| Common.NatToStringValue | image_capture/get_images.py:105 | the decimal digits of `str(n)` read back as n, and a leading `0` occurs only for 0 |
| Common.IntToStringValue | image_capture/get_images.py:105 | `str(n)` starts with `-` iff n is negative, and the digits after the sign read back as the absolute value of n |
| HistogramSplit.LabelPathFallback | dataset_distribution/histogram_distribution_valid_train.py:64-68 | the `.png`-derived path is opened when it exists, the `.jpg`-derived one otherwise; the opened path exists iff one of the two does; it has no backslash |
| HistogramSplit.LabelPath | dataset_distribution/histogram_distribution_valid_train.py:64-68 | the opened path is one of the two derived candidates and has no backslash |
| HistogramSplit.LabelCandidateOfPng | dataset_distribution/histogram_distribution_valid_train.py:64 | for `stem.png` the first candidate is `stem.txt` under the labels folder |
| HistogramSplit.LabelTextClean | dataset_distribution/histogram_distribution_valid_train.py:70-71 | the kept label text is the file content with only whitespace cut at either end, then backslashes replaced; it has no backslash and no surrounding whitespace |
| HistogramSplit.AllLabelledAt | dataset_distribution/histogram_distribution_valid_train.py:62-69 | a listing loads without exception iff every decodable entry has its label file |
| HistogramSplit.LoadDataset | dataset_distribution/histogram_distribution_valid_train.py:55-72 | Ok iff every decodable image has a label; then the names are the decodable entries in order, each paired with its cleaned label text; otherwise the error names the first decodable image without a label |
| HistogramSplit.TrainTarget | dataset_distribution/histogram_distribution_valid_train.py:82-86 | the target is the least count with 10 t >= 7 N, i.e. the ceiling of 0.7 N, and never exceeds N |
| HistogramSplit.TrainTargetExamples | dataset_distribution/histogram_distribution_valid_train.py:82-86 | N = 0, 1, 2, 3, 10 give 0, 1, 2, 3, 7 |
| HistogramSplit.RowPrefixElems | dataset_distribution/histogram_distribution_valid_train.py:93-97 | the first k entries of a ranking row are k distinct indices below N |
| HistogramSplit.WalkRow | dataset_distribution/histogram_distribution_valid_train.py:93-97 | the inner loop adds only unseen indices and breaks with exactly the first `target` entries of the row |
| HistogramSplit.SelectTrain | dataset_distribution/histogram_distribution_valid_train.py:90-98 | the greedy loop stops with exactly `target` indices below N, namely the first `target` entries of row N-1, with `current_idx` decremented at most once |
| HistogramSplit.ComplementMembers | dataset_distribution/histogram_distribution_valid_train.py:100-103 | the complement holds exactly the indices outside the training set, strictly ascending |
| HistogramSplit.ComplementLength | dataset_distribution/histogram_distribution_valid_train.py:100-103 | the complement has one entry per index outside the training set |
| HistogramSplit.Complement | dataset_distribution/histogram_distribution_valid_train.py:100-103 | the indices below i outside the training set number at most i |
| HistogramSplit.CollectValid | dataset_distribution/histogram_distribution_valid_train.py:100-105 | the validation loop returns the ascending complement cut at `max(cap, 1)` entries, since the length check follows the append |
| HistogramSplit.CappedPrefix | dataset_distribution/histogram_distribution_valid_train.py:104-105 | at the `break` the list collected is the capped prefix of the full complement |
| HistogramSplit.SplitIndices | dataset_distribution/histogram_distribution_valid_train.py:82-105 | training has T = TrainTarget(N) indices; validation has N - T, strictly ascending and disjoint from training, and together they are exactly 0..N-1; training is the first T entries of row N-1 |
| HistogramSplit.DistributeImages | dataset_distribution/histogram_distribution_valid_train.py:55-105 | a missing label aborts with MissingLabel; no loaded image gives EmptyInput; otherwise training has TrainTarget(N) indices, namely the first ones of row N-1, and validation is the strictly ascending complement, so together they are exactly 0..N-1 |
| RandomSplit.JpgFilesMembers | dataset_distribution/random_distribution_valid_train.py:26 | the filter keeps exactly the listing entries ending in `.jpg` |
| RandomSplit.JpgFiles | dataset_distribution/random_distribution_valid_train.py:26 | the filter never lengthens the listing |
| RandomSplit.JpgFilesOfAllJpg | dataset_distribution/random_distribution_valid_train.py:50 | a list of `.jpg` names passes the second `.jpg` test unchanged |
| RandomSplit.TruncToInt | dataset_distribution/random_distribution_valid_train.py:35 | `int(x)` truncates toward zero |
| RandomSplit.NumTrain | dataset_distribution/random_distribution_valid_train.py:35 | `int(N * p)` is non-negative for a non-negative fraction and non-positive for a non-positive one |
| RandomSplit.NumTrainBounds | dataset_distribution/random_distribution_valid_train.py:34-36 | for a fraction in [0, 1], `num_train` is the floor of N p and lies in 0..N |
| RandomSplit.SliceBound | dataset_distribution/random_distribution_valid_train.py:38-39 | Python slice bounds: in-range bounds are kept, negative ones count from the end, all are clamped to 0..len |
| RandomSplit.SlicesCover | dataset_distribution/random_distribution_valid_train.py:38-39 | for every integer k, `files[:k] + files[k:k + (N - k)]` is the whole list: nothing dropped or duplicated |
| RandomSplit.SlicesSizes | dataset_distribution/random_distribution_valid_train.py:38-39 | for 0 <= k <= N the slices are the first k and the last N - k names |
| RandomSplit.LabelName | dataset_distribution/random_distribution_valid_train.py:52 | `file[:-4] + '.txt'` ends in `.txt` and keeps all but the last four characters |
| RandomSplit.LabelNameOfJpg | dataset_distribution/random_distribution_valid_train.py:52 | `x.jpg` maps to `x.txt` |
| RandomSplit.Source | dataset_distribution/random_distribution_valid_train.py:51-53 | the source paths have no backslash |
| RandomSplit.Destination | dataset_distribution/random_distribution_valid_train.py:55-56 | the destination path ends with the copied name |
| RandomSplit.LabelCopyOfJpg | dataset_distribution/random_distribution_valid_train.py:52-56 | the label copy of `x.jpg` goes from `labels/x.txt` to `<subset>/labels/x.txt` |
| RandomSplit.CopyPlan | dataset_distribution/random_distribution_valid_train.py:49-56 | two copies per `.jpg` name |
| RandomSplit.CopyPlanAt | dataset_distribution/random_distribution_valid_train.py:49-56 | the i-th `.jpg` name is copied as image at 2i and as label at 2i+1 |
| RandomSplit.CopyFiles | dataset_distribution/random_distribution_valid_train.py:41-56 | the loop makes exactly the copies of CopyPlan, in order |
| RandomSplit.ShuffledAllJpg | dataset_distribution/random_distribution_valid_train.py:26-50 | every name of a permutation of the filtered listing ends in `.jpg`, so neither slice loses a file in `copy_files` |
| RandomSplit.SplitData | dataset_distribution/random_distribution_valid_train.py:16-59 | a missing source or no `.jpg` name returns early; otherwise train ++ valid is the shuffled list, the sizes are `num_train` and N - `num_train`, and each half gets an image and a label copy per name |
| ClassBoat.Word | dataset_distribution/change_to_class_boat.py:22 | the word split off is the longest whitespace-free prefix |
| ClassBoat.Tokens | dataset_distribution/change_to_class_boat.py:22 | `split()` gives at most one token per character |
| ClassBoat.TokensAreTokens | dataset_distribution/change_to_class_boat.py:22 | every piece `split()` returns is a non-empty run of non-space characters |
| ClassBoat.TokensOfSpace | dataset_distribution/change_to_class_boat.py:22 | a blank or whitespace-only line splits into no tokens |
| ClassBoat.TokensAfterToken | dataset_distribution/change_to_class_boat.py:22 | a token followed by whitespace is split off as the first token |
| ClassBoat.TokensOfJoin | dataset_distribution/change_to_class_boat.py:22-28 | splitting the space-join of tokens, with trailing whitespace, gives the tokens back |
| ClassBoat.TokensJoinRoundTrip | dataset_distribution/change_to_class_boat.py:22-28 | `split(' '.join(ts)) == ts` for tokens |
| ClassBoat.TokensOfStrip | dataset_distribution/change_to_class_boat.py:22 | `line.strip().split()` equals `line.split()` |
| ClassBoat.SlashesJoin | dataset_distribution/change_to_class_boat.py:28 | the backslash replacement on a joined line is the join of the rewritten tokens, which are still tokens |
| ClassBoat.ReadLinesConcat | dataset_distribution/change_to_class_boat.py:17 | `readlines()` loses and adds nothing, and gives no line exactly for an empty file |
| ClassBoat.ReadLinesOfConcat | dataset_distribution/change_to_class_boat.py:17-28 | reading back complete written lines gives the same lines |
| ClassBoat.ReadLines | dataset_distribution/change_to_class_boat.py:17 | `readlines()` gives no line exactly for an empty file, and never an empty line |
| ClassBoat.ReadLinesShape | dataset_distribution/change_to_class_boat.py:17 | every line but the last ends in `\n`, and no line has a `\n` before its end |
| ClassBoat.LineTokens | dataset_distribution/change_to_class_boat.py:22 | one token list per line, each the line's split |
| ClassBoat.FirstEmptyIs | dataset_distribution/change_to_class_boat.py:23-24 | the first token list without an entry, where `line[0] = '0'` raises |
| ClassBoat.NewLines | dataset_distribution/change_to_class_boat.py:23-28 | one written line per token list, each the relabelled list |
| ClassBoat.RelabelTextOutcome | dataset_distribution/change_to_class_boat.py:21-24 | an empty file is left alone; the rewrite raises `IndexError` iff some line has no token, at the first such line; otherwise the file is rewritten |
| ClassBoat.RelabelText | dataset_distribution/change_to_class_boat.py:16-28 | the file is left alone iff it is empty |
| ClassBoat.JoinNoNewline | dataset_distribution/change_to_class_boat.py:28 | a space-join of tokens contains no newline |
| ClassBoat.OutputLineShape | dataset_distribution/change_to_class_boat.py:24-28 | a written line is one `\n`-terminated line whose tokens are `0` then the input's tokens 2..k with `/` for `\`, joined by single spaces, with no backslash |
| ClassBoat.RewrittenLines | dataset_distribution/change_to_class_boat.py:21-28 | a rewritten file has as many lines as before, and line i is `0` followed by input line i's tokens after the first |
| ClassBoat.RelabelIdempotent | dataset_distribution/change_to_class_boat.py:21-28 | rewriting a rewritten file gives the same content |
| ClassBoat.FixedLine | dataset_distribution/change_to_class_boat.py:22-28 | a written line whose first token is already `0` is written again unchanged |
| ClassBoat.WriteLines | dataset_distribution/change_to_class_boat.py:26-28 | the write loop emits the output lines in order |
| ClassBoat.ModifyFile | dataset_distribution/change_to_class_boat.py:16-28 | the in-place `line[0] = '0'` loop and the write loop compute RelabelText, `IndexError` included |
| ClassBoat.RewriteSettles | dataset_distribution/change_to_class_boat.py:21-28 | whatever the rewrite leaves in a file is a fixed point of it |
| ClassBoat.TxtPath | dataset_distribution/change_to_class_boat.py:15 | the opened path has no backslash |
| ClassBoat.Step | dataset_distribution/change_to_class_boat.py:14-28 | one iteration creates and removes no file |
| ClassBoat.RunFolderFrame | dataset_distribution/change_to_class_boat.py:13-28 | the pass creates and removes no file, and files not opened for a listed `.txt` name keep their content |
| ClassBoat.RunFolder | dataset_distribution/change_to_class_boat.py:11-28 | the pass keeps the set of files in the folder |
| ClassBoat.RunFolderSettles | dataset_distribution/change_to_class_boat.py:13-28 | after a pass without exception every opened `.txt` file is settled |
| ClassBoat.RunFolderOfSettled | dataset_distribution/change_to_class_boat.py:13-28 | a pass over settled files changes nothing and raises nothing |
| ClassBoat.RunFolderIdempotent | dataset_distribution/change_to_class_boat.py:13-28 | running the pass again after a clean pass leaves the folder unchanged |
| ClassBoat.ModifyListed | dataset_distribution/change_to_class_boat.py:14-28 | one loop iteration skips non-`.txt` names, fails on a missing file or a bad line, and otherwise stores the rewrite |
| ClassBoat.ModifyToClassBoat | dataset_distribution/change_to_class_boat.py:11-28 | the loop over the listing computes RunFolder, stopping at the first exception |
| Superposition.ScaledIrHalvings | image_generation/superposition_cut/superposition_cut.py:17-20 | the IR size is halved, and halved again (a quarter) iff the half exceeds the background in width or height |
| Superposition.ScaledIr | image_generation/superposition_cut/superposition_cut.py:17-20 | the scaled IR image is at most half the original in width and in height |
| Superposition.ScaledIrFits | image_generation/superposition_cut/superposition_cut.py:17-20 | an IR image at most about four times the background ends up inside it |
| Superposition.RandInt | image_generation/superposition_cut/superposition_cut.py:25 | `randint` raises iff its range is empty, otherwise returns a value in range |
| Superposition.Superpose | image_generation/superposition_cut/superposition_cut.py:6-34 | a placement uses the scaled IR size and an IR mode that can serve as its own mask; the only errors are an empty `randint` range and a bad transparency mask |
| Superposition.SuperposeFails | image_generation/superposition_cut/superposition_cut.py:22-32 | the call raises iff the IR image is not taller than the background but does not fit below its top third, or its mode cannot be a paste mask; the empty range is reported first |
| Superposition.SuperposePlacement | image_generation/superposition_cut/superposition_cut.py:22-30 | x is 0 when the background is narrower, else the image fits horizontally; y is 0 when it is shorter, else the image fits and starts at or below the top third |
| Superposition.EqualHeightFails | image_generation/superposition_cut/superposition_cut.py:27-30 | an IR image exactly as tall as the background takes the `randint` branch, which fails from height 3 on and otherwise puts it at the top |
| Superposition.Basename | image_generation/superposition_cut/superposition_cut.py:77 | `basename` is the path's last `/`-free suffix |
| Superposition.OutputPathName | image_generation/superposition_cut/superposition_cut.py:77-78 | the result is saved under `superimposition_` plus the IR file's name |
| Superposition.Process | image_generation/superposition_cut/superposition_cut.py:72-80 | an image yields a saved result iff its placement succeeds and its output name has a known extension, and the result is then the placement |
| Superposition.Processed | image_generation/superposition_cut/superposition_cut.py:63-81 | at most one saved result per image |
| Superposition.ProcessImages | image_generation/superposition_cut/superposition_cut.py:63-81 | the loop saves exactly the results of Processed, in order: at most one per image, and one per image at `superimposition_<name>` in the output folder when every image is a file that places and saves |
| Superposition.ProcessedFromJobs | image_generation/superposition_cut/superposition_cut.py:63-81 | every saved result comes from a regular file whose placement and save succeeded, at that file's output path |
| Superposition.ProcessedSnoc | image_generation/superposition_cut/superposition_cut.py:75-80 | a regular file whose placement and save succeed adds its result at the end |
| Superposition.ProcessedNoneSkipped | image_generation/superposition_cut/superposition_cut.py:63-81 | when every job is a regular file that places and saves, one result per job is saved, in order |
| BorderBlend.PaddingSplit | image_generation/blended_opencv_with_border/blend_images_with_border.py:51-57 | the borders add up to the missing rows and columns, the odd pixel goes bottom/right, and they are non-negative iff the image fits |
| BorderBlend.Padding | image_generation/blended_opencv_with_border/blend_images_with_border.py:51-57 | the borders add up to the missing rows and the missing columns |
| BorderBlend.Bordered | image_generation/blended_opencv_with_border/blend_images_with_border.py:59 | `copyMakeBorder` fails on a negative border, otherwise adds the borders to the size |
| BorderBlend.ExpandFitsTarget | image_generation/blended_opencv_with_border/blend_images_with_border.py:49-62 | padding succeeds iff the image fits the target, and the padded image then has the target size |
| BorderBlend.ExpandWithNeighbors | image_generation/blended_opencv_with_border/blend_images_with_border.py:49-62 | a successful padding has exactly the target size |
| BorderBlend.ExpandToTarget | image_generation/blended_opencv_with_border/blend_images_with_border.py:38-62 | with the 500 x 500 target, an image that fits is padded to 500 x 500 and a larger one fails |
| BorderBlend.ReadAlpha | image_generation/blended_opencv_with_border/blend_images_with_border.py:73-81 | an accepted alpha consumes at least one line |
| BorderBlend.ReadChoice | image_generation/blended_opencv_with_border/blend_images_with_border.py:93-101 | an accepted choice is 0 or 1 and consumes at least one line |
| BorderBlend.ReadChoiceFirst | image_generation/blended_opencv_with_border/blend_images_with_border.py:93-101 | the choice prompt returns the first line reading as 0 or 1, rejects every line before it, and runs out iff no such line remains |
| BorderBlend.ReadAlphaFirst | image_generation/blended_opencv_with_border/blend_images_with_border.py:73-81 | the alpha prompt returns the first line reading as a number in [0, 1], rejecting every line before it |
| BorderBlend.GetChoice | image_generation/blended_opencv_with_border/blend_images_with_border.py:93-101 | the re-prompting loop computes ReadChoice |
| BorderBlend.GetAlpha | image_generation/blended_opencv_with_border/blend_images_with_border.py:73-81 | the re-prompting loop computes ReadAlpha |
| BorderBlend.BlendShape | image_generation/blended_opencv_with_border/blend_images_with_border.py:128-141 | each answer follows a blend, every answer but the last is 1, weights lie in [0, 1], and the session quits iff the last answer is 0 |
| BorderBlend.SessionShape | image_generation/blended_opencv_with_border/blend_images_with_border.py:128-141 | a whole session blends at least once before it can quit on 0, and repeats while the answer is 1 |
| BorderBlend.BlendSession | image_generation/blended_opencv_with_border/blend_images_with_border.py:128-141 | the session quits iff the last answer is 0, and every weight lies in [0, 1] |
| BorderBlend.BlendLoop | image_generation/blended_opencv_with_border/blend_images_with_border.py:128-141 | the `while choice:` loop computes BlendSession |
| CameraControl.LowerAll | image_capture/get_images.py:105 | lower-casing keeps the length and lowers each character |
| CameraControl.Capitalize | image_capture/get_images.py:105 | `capitalize` keeps the length and upper-cases the first character |
| CameraControl.CapitalizeAt | image_capture/get_images.py:105 | `capitalize` lower-cases every character after the first |
| CameraControl.CapitalizeKeeps | image_capture/get_images.py:105 | a word with a capital first letter and lower-case letters after it is unchanged |
| CameraControl.CapitalizePtz | image_capture/get_images.py:105 | `PTZCtrl` is written `Ptzctrl` in URLs |
| CameraControl.CapitalizeOthers | image_capture/get_images.py:105 | `Thermal` and `Streaming` keep their spelling |
| CameraControl.ChannelPathFixed | image_capture/get_images.py:105 | the fixed channel part is `/word/channels/camera/endpoint`, as segments |
| CameraControl.PathOfThen | image_capture/get_images.py:106-109 | an optional part appends `/value` only when the value is not None |
| CameraControl.ChannelPathSegments | image_capture/get_images.py:105-109 | the channel part is its segments in order: word, `channels`, camera, endpoint, then id, then aux, each only when not None |
| CameraControl.BuildUrlSegments | image_capture/get_images.py:104-109 | for PTZCtrl, Thermal and Streaming the URL is the base followed by the capitalised request, `channels`, `2`, the endpoint, the optional id and the optional aux |
| CameraControl.BuildUrlFocus | image_capture/get_images.py:110-111 | any other request gives the focus URL, whatever the endpoint, id and aux |
| CameraControl.BuildUrl | image_capture/get_images.py:91-112 | every URL starts with the base `http://<ip>/ISAPI` |
| CameraControl.UrlPrefix | image_capture/get_images.py:102 | every URL starts with `http://<ip>/ISAPI`, and the camera id is written `2` |
| CameraControl.ParseVerb | image_capture/get_images.py:131-139 | a dispatched verb is the one whose name the method is |
| CameraControl.ParseVerbName | image_capture/get_images.py:131-139 | each verb is dispatched under its own name, and a method is rejected iff it names no verb |
| CameraControl.SendRequest | image_capture/get_images.py:114-139 | Ok iff the method is one of the four names; the call goes to `build_url`'s URL with that verb; GET sends no body, the others send `data` |
| CameraControl.SendVerb | image_capture/get_images.py:130-139 | a verb name always dispatches, to a call with that verb and URL |
| CameraControl.HandlePtzResponse | image_capture/get_images.py:152-159 | success iff the status code is 200 |
| CameraControl.EnabledMapping | image_capture/get_images.py:279-282 | `true` iff enabled equals 1 (or True), `false` otherwise, including for the string `'true'` |
| CameraControl.UpdataPreset | image_capture/get_images.py:269-284 | a PUT to the preset's URL carrying the body built from enabled, id and name |
| CameraControl.Text | image_capture/get_images.py:283 | the element text read is a `<`-free prefix |
| CameraControl.FillRoundTrip | image_capture/get_images.py:283 | the three texts filled into a tag layout are read back in order when they contain no `<` |
| CameraControl.Payload | image_capture/get_images.py:283 | the update body is a `PTZPreset` element: it opens with `<PTZPreset ...><enabled>` and ends with `</presetName></PTZPreset>` |
| CameraControl.PayloadRoundTrip | image_capture/get_images.py:283 | the body carries the enabled name, the id and the preset name, in that order |
| CameraControl.GotoCall | image_capture/get_images.py:161-168 | moving to a preset is a body-less PUT to `.../Ptzctrl/channels/2/presets/<id>/goto` |
| CameraControl.PictureCall | image_capture/get_images.py:208-215 | the picture is a GET of `.../Streaming/channels/2/picture` |
| CameraControl.FallbackCalls | image_capture/get_images.py:254-284 | the fallback reads the preset by GET and writes it by PUT to the same URL with an update body |
| CameraControl.FallbackBody | image_capture/get_images.py:410 | the fallback's body enables the preset and names it `Newpreset2` |
| CameraControl.FirstMatch | image_capture/get_images.py:346-385 | the first matching attempt lies between the start and five |
| CameraControl.FirstMatchIs | image_capture/get_images.py:346-385 | every attempt before the first match missed, and it matched unless it is five |
| CameraControl.Retry | image_capture/get_images.py:343-410 | two to seven requests; the capture is a match iff the last request is the picture |
| CameraControl.Gotos | image_capture/get_images.py:348 | n moves to the preset |
| CameraControl.RetryOutcome | image_capture/get_images.py:343-410 | at most five attempts; a match breaks before the increment, so it is at attempt at most 4, after attempt+1 moves, then the picture; the fallback runs iff all five observations miss |
| CameraControl.GetImage | image_capture/get_images.py:343-410 | the counter loop with its `break` and the `attempt == max_attempts` check computes Retry |

## Left out

- Colour histograms, Euclidean distances and `argsort` are float numerics in foreign libraries. The ranking table is an input that must be an N x N table of permutations.
- The histogram copy phase indexes the raw listings, not the loaded images, so which files it copies is not modelled. `makedirs` and the `shutil` copies are also left out.
- Image decoding, resizing, `copyMakeBorder` pixels, `addWeighted`, PIL `paste` and window display are library calls. Only sizes, the IR image's mode and whether the output name has a known extension are modelled.
- Other exceptions in `process_images` (an `OSError` from `Image.open` or `save`) are not caught there and are not modelled.
- Images whose resize raises inside `superposition_cut` are not modelled. `resize` on a zero size is taken to succeed.
- `blending_openvc.py` is a thin wrapper over OpenCV with no logic of its own.
- RandomSplit.CopyFiles, RandomSplit.SplitData: the plan lists the copies attempted; a `shutil.copy` whose source is missing raises `FileNotFoundError` and ends the run, so the later copies are not made. This is not modelled.
- `random.shuffle`, `random.choice` and `random.randint` are inputs: an arbitrary permutation and picks in range. An empty background listing, where `random.choice` raises `IndexError`, is not modelled.
- HistogramSplit.TrainTarget: Python computes `int(N * 0.7)` and `0.7 * N` in binary floating point. The model uses exact tenths. This agrees for every N whose float product is not rounded across an integer.
- RandomSplit.NumTrain: `train_percent` is an exact real, not a float.
- The alpha weight is an exact real, and pan/tilt coordinates are exact reals, with no NaN.
- `int()` and `float()` parsing of console lines is an input (`Line`). `input()` raising at end of input is modelled as `EndOfInput`.
- File contents are text after universal-newline translation, so only `\n` ends a line.
- `str.split()` and `str.strip()` use Python's whitespace set of code points.
- `str.capitalize` is modelled for ASCII letters only.
- `os.path.join` is POSIX; Windows drive and separator rules are not modelled.
- Filesystem and network I/O are not modelled:
  - `os.listdir`, `os.walk`/`glob` and `os.path.isfile` are inputs;
  - the JSON preset files and `updata_preset_file`'s JSON rewrite are left out;
  - the status JSON written with a timestamp, the saved picture and `get_preset_name_from_xml` are left out;
  - the HTTP responses are left out. Requests are returned as values, and `get_image`'s moves, picture and fallback are a list of symbolic requests.
- `time.sleep`, timestamps, logging and `print` have no effect on the logic.
- `PyValue` covers None, booleans, integers and strings. A float preset id is not modelled.
