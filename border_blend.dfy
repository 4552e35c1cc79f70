/** Blending a foreground picture onto a background one: the foreground is
    padded out to 500 x 500 pixels by replicating its border, and the user is
    asked for a blending weight and then whether to blend again, until they
    answer 0. The console is a sequence of lines, each given by what
    Python's `int()` and `float()` make of it. */
module BorderBlend {
  import opened Common

  // ---------------------------------------------------------------------
  // `expand_with_neighbors`
  // ---------------------------------------------------------------------

  /** An image size, `(width, height)` as OpenCV's `resize` takes it. */
  datatype Size = Size(width: nat, height: nat)

  /** The `target_size` the foreground is expanded to. */
  const Target: Size := Size(500, 500)

  /** The border widths handed to `copyMakeBorder`. */
  datatype Borders = Borders(top: int, bottom: int, left: int, right: int)

  /** The padding split: half the missing rows above and half the missing
      columns to the left, rounded down as Python's `//` does, and the rest
      below and to the right. Dafny's `/` agrees with `//` for the divisor 2. */
  function Padding(image: Size, target: Size): (b: Borders)
    ensures b.top + b.bottom == target.height - image.height
    ensures b.left + b.right == target.width - image.width
  {
    var deltaW := target.width - image.width;
    var deltaH := target.height - image.height;
    var top := deltaH / 2;
    var left := deltaW / 2;
    Borders(top, deltaH - top, left, deltaW - left)
  }

  /** The borders add up to the missing rows and columns, any odd pixel goes
      to the bottom or the right, and the borders are non-negative exactly
      when the image is no larger than the target. */
  lemma PaddingSplit(image: Size, target: Size)
    ensures var b := Padding(image, target);
            && b.top + b.bottom == target.height - image.height
            && b.left + b.right == target.width - image.width
            && 0 <= b.bottom - b.top <= 1
            && 0 <= b.right - b.left <= 1
            && (b.top >= 0 && b.bottom >= 0 <==> image.height <= target.height)
            && (b.left >= 0 && b.right >= 0 <==> image.width <= target.width)
  {
  }

  /** The size `copyMakeBorder` produces. */
  function Bordered(image: Size, b: Borders): (r: Result<Size, Borders>)
    ensures r.Ok? <==> b.top >= 0 && b.bottom >= 0 && b.left >= 0 && b.right >= 0
    ensures r.Ok? ==> r.value.width == image.width + b.left + b.right
    ensures r.Ok? ==> r.value.height == image.height + b.top + b.bottom
  {
    if b.top < 0 || b.bottom < 0 || b.left < 0 || b.right < 0 then Err(b)
    else Ok(Size(image.width + b.left + b.right, image.height + b.top + b.bottom))
  }

  /** `expand_with_neighbors`, as far as sizes go: the padded size, which the
      final `resize` then brings to the target; OpenCV rejects a negative
      border. */
  function ExpandWithNeighbors(image: Size, target: Size): (r: Result<Size, Borders>)
    ensures r.Ok? ==> r.value == target
  {
    Bordered(image, Padding(image, target))
  }

  /** Padding succeeds exactly when the image fits in the target, and then
      the padded image already has the target size, so the `resize` after it
      does not stretch anything. */
  lemma ExpandFitsTarget(image: Size, target: Size)
    ensures var r := ExpandWithNeighbors(image, target);
            && (r.Ok? <==> image.width <= target.width && image.height <= target.height)
            && (r.Ok? ==> r.value == target)
  {
    PaddingSplit(image, target);
  }

  /** The script's 500 x 500 target: any foreground up to that size is
      padded to exactly that size, and a larger one makes OpenCV raise. */
  lemma ExpandToTarget(image: Size)
    ensures image.width <= 500 && image.height <= 500 ==> ExpandWithNeighbors(image, Target) == Ok(Target)
    ensures image.width > 500 || image.height > 500 ==> ExpandWithNeighbors(image, Target).Err?
  {
    ExpandFitsTarget(image, Target);
  }

  // ---------------------------------------------------------------------
  // The prompts
  // ---------------------------------------------------------------------

  /** One console line, as `int(line)` and `float(line)` read it: `None`
      where the conversion raises `ValueError`. */
  datatype Line = Line(asInt: Option<int>, asReal: Option<real>)

  /** What a prompt got: the accepted value and the position of the next
      unread line, or the end of the input. */
  datatype Read<T> = Got(value: T, next: nat) | EndOfInput

  predicate AcceptedAlpha(line: Line) {
    line.asReal.Some? && 0.0 <= line.asReal.value <= 1.0
  }

  predicate AcceptedChoice(line: Line) {
    line.asInt.Some? && (line.asInt.value == 0 || line.asInt.value == 1)
  }

  /** `get_alpha_from_user` started at line `pos`: the first line from `pos`
      on that is a number in [0, 1]. */
  function ReadAlpha(console: seq<Line>, pos: nat): (r: Read<real>)
    ensures r.Got? ==> pos < r.next <= |console|
    decreases |console| - pos
  {
    if pos >= |console| then EndOfInput
    else if AcceptedAlpha(console[pos]) then Got(console[pos].asReal.value, pos + 1)
    else ReadAlpha(console, pos + 1)
  }

  /** `get_choice_from_user` started at line `pos`: the first line from
      `pos` on that is the integer 0 or 1. */
  function ReadChoice(console: seq<Line>, pos: nat): (r: Read<int>)
    ensures r.Got? ==> pos < r.next <= |console| && (r.value == 0 || r.value == 1)
    decreases |console| - pos
  {
    if pos >= |console| then EndOfInput
    else if AcceptedChoice(console[pos]) then Got(console[pos].asInt.value, pos + 1)
    else ReadChoice(console, pos + 1)
  }

  /** The choice prompt returns the first acceptable line, which is 0 or 1;
      every line it skips is rejected; it reaches the end of the input
      exactly when no line from `pos` on is acceptable. */
  lemma {:induction false} ReadChoiceFirst(console: seq<Line>, pos: nat)
    ensures var r := ReadChoice(console, pos);
            && (r.EndOfInput? <==> forall j :: pos <= j < |console| ==> !AcceptedChoice(console[j]))
            && (r.Got? ==>
                  && pos < r.next <= |console|
                  && (r.value == 0 || r.value == 1)
                  && console[r.next - 1].asInt == Some(r.value)
                  && forall j :: pos <= j < r.next - 1 ==> !AcceptedChoice(console[j]))
    decreases |console| - pos
  {
    if pos < |console| && !AcceptedChoice(console[pos]) {
      ReadChoiceFirst(console, pos + 1);
    }
  }

  /** The alpha prompt returns the first line that is a number in [0, 1];
      every line it skips is rejected. */
  lemma {:induction false} ReadAlphaFirst(console: seq<Line>, pos: nat)
    ensures var r := ReadAlpha(console, pos);
            && (r.EndOfInput? <==> forall j :: pos <= j < |console| ==> !AcceptedAlpha(console[j]))
            && (r.Got? ==>
                  && pos < r.next <= |console|
                  && 0.0 <= r.value <= 1.0
                  && console[r.next - 1].asReal == Some(r.value)
                  && forall j :: pos <= j < r.next - 1 ==> !AcceptedAlpha(console[j]))
    decreases |console| - pos
  {
    if pos < |console| && !AcceptedAlpha(console[pos]) {
      ReadAlphaFirst(console, pos + 1);
    }
  }

  /** `get_choice_from_user`: keeps prompting until a line reads as 0 or 1. */
  method GetChoice(console: seq<Line>, pos: nat) returns (r: Read<int>)
    ensures r == ReadChoice(console, pos)
  {
    var i := pos;
    while i < |console|
      invariant pos <= i
      invariant ReadChoice(console, i) == ReadChoice(console, pos)
      decreases |console| - i
    {
      var line := console[i];
      if line.asInt.Some? {
        var choice := line.asInt.value;
        if choice == 0 || choice == 1 {
          return Got(choice, i + 1);
        }
      }
      i := i + 1;
    }
    r := EndOfInput;
  }

  /** `get_alpha_from_user`: keeps prompting until a line reads as a number
      in [0, 1]. */
  method GetAlpha(console: seq<Line>, pos: nat) returns (r: Read<real>)
    ensures r == ReadAlpha(console, pos)
  {
    var i := pos;
    while i < |console|
      invariant pos <= i
      invariant ReadAlpha(console, i) == ReadAlpha(console, pos)
      decreases |console| - i
    {
      var line := console[i];
      if line.asReal.Some? {
        var alpha := line.asReal.value;
        if 0.0 <= alpha && alpha <= 1.0 {
          return Got(alpha, i + 1);
        }
      }
      i := i + 1;
    }
    r := EndOfInput;
  }

  // ---------------------------------------------------------------------
  // The blend loop
  // ---------------------------------------------------------------------

  /** What a blending session did: the weight of each blend, the answers to
      the "continue" prompt, and whether it ended on a 0 rather than at the
      end of the input. */
  datatype Session = Session(alphas: seq<real>, choices: seq<int>, quit: bool)

  /** The blend loop from line `pos` on, with `choice` the last answer and
      `alphas` and `choices` what the rounds so far have read: stop on a 0,
      otherwise read a weight, blend, ask whether to go on and go round
      again. */
  function Blend(console: seq<Line>, pos: nat, choice: int, alphas: seq<real>, choices: seq<int>): Session
    decreases |console| - pos
  {
    if choice == 0 then Session(alphas, choices, true)
    else
      match ReadAlpha(console, pos)
      case EndOfInput => Session(alphas, choices, false)
      case Got(alpha, afterAlpha) =>
        match ReadChoice(console, afterAlpha)
        case EndOfInput => Session(alphas + [alpha], choices, false)
        case Got(answer, afterChoice) =>
          Blend(console, afterChoice, answer, alphas + [alpha], choices + [answer])
  }

  /** A whole session, started with `choice = 1`. */
  function BlendSession(console: seq<Line>): (s: Session)
    ensures s.quit <==> |s.choices| > 0 && s.choices[|s.choices| - 1] == 0
    ensures forall j :: 0 <= j < |s.alphas| ==> 0.0 <= s.alphas[j] <= 1.0
  {
    BlendShape(console, 0, 1, [], []);
    Blend(console, 0, 1, [], [])
  }

  /** What holds of the rounds read so far: one answer per weight, the
      weights in [0, 1], every answer but the last a 1, and the last one the
      current `choice`. */
  predicate RoundsSoFar(choice: int, alphas: seq<real>, choices: seq<int>) {
    && |alphas| == |choices|
    && (forall j :: 0 <= j < |alphas| ==> 0.0 <= alphas[j] <= 1.0)
    && (forall j :: 0 <= j < |choices| - 1 ==> choices[j] == 1)
    && (choices == [] ==> choice == 1)
    && (choices != [] ==> choice == choices[|choices| - 1])
    && (choice == 0 || choice == 1)
  }

  /** The loop body runs before the first question is asked; each answer
      follows a blend; every answer but the last is 1; the session ends on
      a 0 exactly when it does not run out of input, and then it has blended
      at least once. */
  lemma {:induction false} BlendShape(console: seq<Line>, pos: nat, choice: int, alphas: seq<real>, choices: seq<int>)
    requires RoundsSoFar(choice, alphas, choices)
    ensures var s := Blend(console, pos, choice, alphas, choices);
            && |s.alphas| - 1 <= |s.choices| <= |s.alphas|
            && (forall j :: 0 <= j < |s.choices| - 1 ==> s.choices[j] == 1)
            && (forall j :: 0 <= j < |s.alphas| ==> 0.0 <= s.alphas[j] <= 1.0)
            && (s.quit <==> |s.choices| > 0 && s.choices[|s.choices| - 1] == 0)
            && (s.quit ==> |s.alphas| == |s.choices|)
    decreases |console| - pos
  {
    if choice != 0 {
      ReadAlphaFirst(console, pos);
      match ReadAlpha(console, pos)
      case EndOfInput =>
      case Got(alpha, afterAlpha) =>
        match ReadChoice(console, afterAlpha)
        case EndOfInput =>
        case Got(answer, afterChoice) =>
          BlendShape(console, afterChoice, answer, alphas + [alpha], choices + [answer]);
    }
  }

  /** The shape of a whole session. */
  lemma SessionShape(console: seq<Line>)
    ensures var s := BlendSession(console);
            && |s.alphas| - 1 <= |s.choices| <= |s.alphas|
            && (forall j :: 0 <= j < |s.choices| - 1 ==> s.choices[j] == 1)
            && (forall j :: 0 <= j < |s.alphas| ==> 0.0 <= s.alphas[j] <= 1.0)
            && (s.quit <==> |s.choices| > 0 && s.choices[|s.choices| - 1] == 0)
            && (s.quit ==> 1 <= |s.alphas| == |s.choices|)
  {
    BlendShape(console, 0, 1, [], []);
  }

  /** The `while choice:` loop of `blend_images_with_border`, starting with
      `choice = 1`. */
  method BlendLoop(console: seq<Line>) returns (session: Session)
    ensures session == BlendSession(console)
  {
    var alphas: seq<real> := [];
    var choices: seq<int> := [];
    var pos := 0;
    var choice := 1;
    while choice != 0
      invariant pos <= |console|
      invariant Blend(console, pos, choice, alphas, choices) == BlendSession(console)
      decreases |console| - pos
    {
      var alpha := GetAlpha(console, pos);
      if alpha.EndOfInput? {
        return Session(alphas, choices, false);
      }
      alphas := alphas + [alpha.value];
      var answer := GetChoice(console, alpha.next);
      if answer.EndOfInput? {
        return Session(alphas, choices, false);
      }
      choices := choices + [answer.value];
      choice := answer.value;
      pos := answer.next;
    }
    session := Session(alphas, choices, true);
  }
}
