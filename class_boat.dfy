/** The relabelling pass that turns every YOLO label file of a folder into
    class `0` (boat): each line is split on whitespace, its first token is
    replaced by `0`, and the tokens are written back joined by single
    spaces, with backslashes turned into `/` and a newline after each line.
    File contents are the text as read in Python's text mode, after the
    universal-newline translation, so lines end in `\n` only. */
module ClassBoat {
  import opened Common

  // ---------------------------------------------------------------------
  // `str.split()` and `' '.join`
  // ---------------------------------------------------------------------

  /** The longest prefix of `s` without whitespace. */
  function Word(s: string): (w: string)
    ensures w <= s && NoSpace(w)
    ensures |w| < |s| ==> IsSpace(s[|w|])
  {
    if s == [] || IsSpace(s[0]) then [] else [s[0]] + Word(s[1..])
  }

  /** A token of `str.split()`: a non-empty run of non-space characters. */
  predicate IsToken(t: string) {
    t != [] && NoSpace(t)
  }

  predicate AllTokens(ts: seq<string>) {
    forall i :: 0 <= i < |ts| ==> IsToken(ts[i])
  }

  /** Python's `s.split()` with no argument: the maximal runs of non-space
      characters, in order; each takes at least one character. Leading and
      trailing whitespace yield nothing, so this is also `s.strip().split()`
      (`TokensOfStrip`). */
  function Tokens(s: string): (r: seq<string>)
    ensures |r| <= |s|
    decreases |s|
  {
    if s == [] then []
    else if IsSpace(s[0]) then Tokens(s[1..])
    else
      var w := Word(s);
      [w] + Tokens(s[|w|..])
  }

  /** Every piece `split` returns is a token. */
  lemma {:induction false} TokensAreTokens(s: string)
    ensures AllTokens(Tokens(s))
    decreases |s|
  {
    if s != [] {
      if IsSpace(s[0]) {
        TokensAreTokens(s[1..]);
      } else {
        TokensAreTokens(s[|Word(s)|..]);
      }
    }
  }

  /** `' '.join(ts)`. */
  function Join(ts: seq<string>): string {
    if ts == [] then []
    else if |ts| == 1 then ts[0]
    else ts[0] + " " + Join(ts[1..])
  }

  predicate AllSpace(s: string) {
    forall i :: 0 <= i < |s| ==> IsSpace(s[i])
  }

  lemma {:induction false} TokensOfSpace(s: string)
    requires AllSpace(s)
    ensures Tokens(s) == []
  {
    if s != [] {
      TokensOfSpace(s[1..]);
    }
  }

  /** Whitespace at the end does not change the first word. */
  lemma {:induction false} WordSnocSpace(s: string, c: char)
    requires IsSpace(c)
    ensures Word(s + [c]) == Word(s)
  {
    if s != [] && !IsSpace(s[0]) {
      assert (s + [c])[1..] == s[1..] + [c];
      WordSnocSpace(s[1..], c);
    }
  }

  /** Whitespace at the end yields no token. */
  lemma {:induction false} TokensSnocSpace(s: string, c: char)
    requires IsSpace(c)
    ensures Tokens(s + [c]) == Tokens(s)
    decreases |s|
  {
    var t := s + [c];
    if s == [] {
      assert Tokens(t[1..]) == [];
    } else if IsSpace(s[0]) {
      assert t[1..] == s[1..] + [c];
      TokensSnocSpace(s[1..], c);
    } else {
      WordSnocSpace(s, c);
      var w := Word(s);
      assert t[|w|..] == s[|w|..] + [c];
      TokensSnocSpace(s[|w|..], c);
    }
  }

  /** `s.strip().split()` is `s.split()`: stripping first changes nothing. */
  lemma {:induction false} TokensOfStrip(s: string)
    ensures Tokens(Strip(s)) == Tokens(s)
    decreases |s|
  {
    if |s| > 0 {
      if IsSpace(s[0]) {
        StripLeading(s);
        TokensOfStrip(s[1..]);
      } else if IsSpace(s[|s| - 1]) {
        StripTrailing(s);
        TokensTrailing(s);
        TokensOfStrip(s[..|s| - 1]);
      }
    }
  }

  lemma StripLeading(s: string)
    requires s != [] && IsSpace(s[0])
    ensures Strip(s) == Strip(s[1..]) && Tokens(s) == Tokens(s[1..])
  {
  }

  lemma StripTrailing(s: string)
    requires s != [] && !IsSpace(s[0]) && IsSpace(s[|s| - 1])
    ensures Strip(s) == Strip(s[..|s| - 1])
  {
  }

  lemma TokensTrailing(s: string)
    requires s != [] && IsSpace(s[|s| - 1])
    ensures Tokens(s) == Tokens(s[..|s| - 1])
  {
    var front := s[..|s| - 1];
    assert s == front + [s[|s| - 1]];
    TokensSnocSpace(front, s[|s| - 1]);
  }

  /** A token followed by whitespace (or nothing) is read back as one word. */
  lemma {:induction false} WordOfToken(t: string, rest: string)
    requires NoSpace(t)
    requires rest == [] || IsSpace(rest[0])
    ensures Word(t + rest) == t
  {
    if t != [] {
      assert (t + rest)[1..] == t[1..] + rest;
      WordOfToken(t[1..], rest);
    } else {
      assert t + rest == rest;
    }
  }

  /** A token followed by whitespace (or nothing) is split off as the first
      token. */
  lemma TokensAfterToken(t: string, rest: string)
    requires IsToken(t)
    requires rest == [] || IsSpace(rest[0])
    ensures Tokens(t + rest) == [t] + Tokens(rest)
  {
    var s := t + rest;
    assert s[0] == t[0];
    WordOfToken(t, rest);
    assert s[|t|..] == rest;
  }

  /** Splitting the join of a list of tokens, even with trailing whitespace
      such as the final newline, gives the tokens back. */
  lemma {:induction false} TokensOfJoin(ts: seq<string>, tail: string)
    requires AllTokens(ts)
    requires AllSpace(tail)
    ensures Tokens(Join(ts) + tail) == ts
  {
    if ts == [] {
      assert Join(ts) + tail == tail;
      TokensOfSpace(tail);
    } else if |ts| == 1 {
      assert Join(ts) + tail == ts[0] + tail;
      TokensAfterToken(ts[0], tail);
      TokensOfSpace(tail);
    } else {
      var more := Join(ts[1..]) + tail;
      assert Join(ts) + tail == ts[0] + (" " + more);
      TokensAfterToken(ts[0], " " + more);
      assert (" " + more)[1..] == more;
      TokensOfJoin(ts[1..], tail);
    }
  }

  /** The round trip of `split` and `' '.join`. */
  lemma TokensJoinRoundTrip(ts: seq<string>)
    requires AllTokens(ts)
    ensures Tokens(Join(ts)) == ts
  {
    TokensOfJoin(ts, []);
    assert Join(ts) + [] == Join(ts);
  }

  /** Each token with its backslashes turned into `/`. */
  function SlashesAll(ts: seq<string>): (r: seq<string>)
    ensures |r| == |ts|
  {
    if ts == [] then [] else [Slashes(ts[0])] + SlashesAll(ts[1..])
  }

  /** Turning backslashes into `/` keeps a token a token. */
  lemma SlashesToken(t: string)
    requires IsToken(t)
    ensures IsToken(Slashes(t))
  {
    SlashesAt(t);
  }

  /** `' '.join(ts).replace("\\", "/")` is the join of the rewritten tokens,
      which are still tokens. */
  lemma {:induction false} SlashesJoin(ts: seq<string>)
    requires AllTokens(ts)
    ensures Slashes(Join(ts)) == Join(SlashesAll(ts))
    ensures AllTokens(SlashesAll(ts))
  {
    if ts != [] {
      SlashesJoin(ts[1..]);
      SlashesToken(ts[0]);
      if |ts| > 1 {
        SlashesAppend(ts[0] + " ", Join(ts[1..]));
        SlashesAppend(ts[0], " ");
      }
    }
  }

  // ---------------------------------------------------------------------
  // `readlines()`
  // ---------------------------------------------------------------------

  /** The length of the first line of a non-empty text, its `\n` included. */
  function FirstLineLength(text: string): (k: nat)
    requires text != []
    ensures 0 < k <= |text|
    ensures forall i :: 0 <= i < k - 1 ==> text[i] != '\n'
    ensures k < |text| ==> text[k - 1] == '\n'
  {
    if text[0] == '\n' || |text| == 1 then 1 else 1 + FirstLineLength(text[1..])
  }

  /** `readlines()`: the text cut after every `\n`; only the last line may
      lack one. */
  function ReadLines(text: string): (r: seq<string>)
    ensures r == [] <==> text == []
    ensures forall i :: 0 <= i < |r| ==> r[i] != []
    decreases |text|
  {
    if text == [] then []
    else
      var k := FirstLineLength(text);
      [text[..k]] + ReadLines(text[k..])
  }

  /** Lines as `readlines()` cuts them: a `\n` only at the end of a line,
      and one there on every line but the last. */
  predicate LinesShaped(r: seq<string>) {
    && (forall i, j :: 0 <= i < |r| && 0 <= j < |r[i]| - 1 ==> r[i][j] != '\n')
    && (forall i :: 0 <= i < |r| - 1 ==> IsLine(r[i]))
  }

  /** Every line `readlines()` returns holds a `\n` only at its end, and
      every line but the last has one there. */
  lemma {:induction false} ReadLinesShape(text: string)
    ensures LinesShaped(ReadLines(text))
    decreases |text|
  {
    if text != [] {
      var k := FirstLineLength(text);
      var rest := ReadLines(text[k..]);
      ReadLinesShape(text[k..]);
      var r := ReadLines(text);
      assert r == [text[..k]] + rest;
      forall i, j | 0 <= i < |r| && 0 <= j < |r[i]| - 1 ensures r[i][j] != '\n' {
        if i > 0 {
          assert r[i] == rest[i - 1];
          assert rest[i - 1][j] != '\n';
        } else {
          assert r[0] == text[..k] && r[0][j] == text[j];
        }
      }
      forall i | 0 <= i < |r| - 1 ensures IsLine(r[i]) {
        if i > 0 {
          assert r[i] == rest[i - 1];
          assert IsLine(rest[i - 1]);
        } else {
          assert text[k..] != [];
          assert r[0] == text[..k];
        }
      }
    }
  }

  function Concat(lines: seq<string>): string {
    if lines == [] then [] else lines[0] + Concat(lines[1..])
  }

  /** Nothing is lost or added by cutting a text into lines. */
  lemma {:induction false} ReadLinesConcat(text: string)
    ensures Concat(ReadLines(text)) == text
    ensures ReadLines(text) == [] <==> text == []
    decreases |text|
  {
    if text != [] {
      var k := FirstLineLength(text);
      ReadLinesConcat(text[k..]);
      assert text[..k] + text[k..] == text;
    }
  }

  /** A line as `write(... + '\n')` produces it: exactly one `\n`, at its
      end. */
  predicate IsLine(l: string) {
    && l != [] && l[|l| - 1] == '\n'
    && forall i :: 0 <= i < |l| - 1 ==> l[i] != '\n'
  }

  lemma {:induction false} FirstLineOfLine(l: string, rest: string)
    requires IsLine(l)
    ensures FirstLineLength(l + rest) == |l|
  {
    if |l| > 1 {
      assert (l + rest)[1..] == l[1..] + rest;
      FirstLineOfLine(l[1..], rest);
    }
  }

  /** Writing complete lines and reading them back gives the same lines. */
  lemma {:induction false} ReadLinesOfConcat(lines: seq<string>)
    requires forall i :: 0 <= i < |lines| ==> IsLine(lines[i])
    ensures ReadLines(Concat(lines)) == lines
  {
    if lines != [] {
      var text := Concat(lines);
      FirstLineOfLine(lines[0], Concat(lines[1..]));
      assert text[..|lines[0]|] == lines[0];
      assert text[|lines[0]|..] == Concat(lines[1..]);
      ReadLinesOfConcat(lines[1..]);
    }
  }

  /** Appending one more line to the text. */
  lemma {:induction false} ConcatSnoc(lines: seq<string>, l: string)
    ensures Concat(lines + [l]) == Concat(lines) + l
  {
    if lines != [] {
      assert (lines + [l])[1..] == lines[1..] + [l];
      ConcatSnoc(lines[1..], l);
    } else {
      assert [l][1..] == [];
    }
  }

  // ---------------------------------------------------------------------
  // The per-file rewrite
  // ---------------------------------------------------------------------

  /** `line[0] = '0'` on a token list that has a first token. */
  function Relabel(ts: seq<string>): seq<string>
    requires ts != []
  {
    ["0"] + ts[1..]
  }

  /** `' '.join(line).replace("\\", "/") + '\n'`. */
  function OutputLine(ts: seq<string>): string {
    Slashes(Join(ts)) + "\n"
  }

  /** `[line.strip().split() for line in lines]`. */
  function LineTokens(lines: seq<string>): (lists: seq<seq<string>>)
    ensures |lists| == |lines|
    ensures forall i :: 0 <= i < |lines| ==> lists[i] == Tokens(lines[i])
  {
    seq(|lines|, i requires 0 <= i < |lines| => Tokens(lines[i]))
  }

  /** Every token list has a first entry, so `line[0] = '0'` does not raise. */
  predicate NoneEmpty(lists: seq<seq<string>>) {
    forall j :: 0 <= j < |lists| ==> lists[j] != []
  }

  /** The index of the first empty token list, `|lists|` if there is none. */
  function FirstEmpty(lists: seq<seq<string>>): (k: nat)
    ensures k <= |lists|
  {
    if lists == [] || lists[0] == [] then 0 else 1 + FirstEmpty(lists[1..])
  }

  /** `FirstEmpty` is the first empty list: every list before it has an
      entry, and the one at it has none. */
  lemma {:induction false} FirstEmptyIs(lists: seq<seq<string>>, i: nat)
    requires i <= |lists|
    ensures FirstEmpty(lists) == i <==>
      (forall j :: 0 <= j < i ==> lists[j] != []) && (i < |lists| ==> lists[i] == [])
  {
    if i > 0 && lists != [] && lists[0] != [] {
      FirstEmptyIs(lists[1..], i - 1);
      assert forall j :: 1 <= j < i ==> lists[j] == lists[1..][j - 1];
    }
  }

  /** The token lists after the `line[0] = '0'` loop. */
  function RelabelAll(lists: seq<seq<string>>): (out: seq<seq<string>>)
    requires NoneEmpty(lists)
    ensures |out| == |lists|
  {
    seq(|lists|, i requires 0 <= i < |lists| => Relabel(lists[i]))
  }

  /** The lines the write loop produces for `lists`. */
  function OutputLines(lists: seq<seq<string>>): (out: seq<string>)
    ensures |out| == |lists|
  {
    seq(|lists|, i requires 0 <= i < |lists| => OutputLine(lists[i]))
  }

  /** The lines written for token lists that all have a first entry. */
  function NewLines(lists: seq<seq<string>>): (out: seq<string>)
    requires NoneEmpty(lists)
    ensures |out| == |lists|
    ensures forall i :: 0 <= i < |lists| ==> out[i] == OutputLine(Relabel(lists[i]))
  {
    OutputLines(RelabelAll(lists))
  }

  /** What happens to one label file: left alone when it has no lines,
      aborted by `IndexError` at the first line without a token, otherwise
      rewritten. */
  datatype Rewrite = Unchanged | Rewritten(content: string) | IndexError(line: nat)

  function RelabelText(text: string): (r: Rewrite)
    ensures r.Unchanged? <==> text == []
  {
    var lines := ReadLines(text);
    var lists := LineTokens(lines);
    var k := FirstEmpty(lists);
    if lines == [] then Unchanged
    else if k < |lists| then IndexError(k)
    else
      FirstEmptyIs(lists, k);
      Rewritten(Concat(NewLines(lists)))
  }

  /** The three outcomes: a file is left alone exactly when it is empty; it
      fails exactly when some line has no token, at the first such line; and
      otherwise it is rewritten. */
  lemma RelabelTextOutcome(text: string)
    ensures var r := RelabelText(text);
            var lines := ReadLines(text);
            && (r == Unchanged <==> text == [])
            && (r.IndexError? <==> text != [] && exists j :: 0 <= j < |lines| && Tokens(lines[j]) == [])
            && (r.IndexError? ==>
                  && r.line < |lines| && Tokens(lines[r.line]) == []
                  && forall j :: 0 <= j < r.line ==> Tokens(lines[j]) != [])
  {
    var lines := ReadLines(text);
    var lists := LineTokens(lines);
    ReadLinesConcat(text);
    var k := FirstEmpty(lists);
    FirstEmptyIs(lists, k);
  }

  /** `' '.join` of tokens never produces a `\n`: the only whitespace in it
      is the separating spaces. */
  lemma {:induction false} JoinNoNewline(ts: seq<string>)
    requires AllTokens(ts)
    ensures forall i :: 0 <= i < |Join(ts)| ==> Join(ts)[i] != '\n'
  {
    if |ts| > 1 {
      JoinNoNewline(ts[1..]);
      var t := ts[0];
      forall i | 0 <= i < |Join(ts)| ensures Join(ts)[i] != '\n' {
        if i < |t| {
          assert Join(ts)[i] == t[i] && !IsSpace(t[i]);
        } else if i > |t| {
          assert Join(ts)[i] == Join(ts[1..])[i - |t| - 1];
        }
      }
    } else if |ts| == 1 {
      assert forall i :: 0 <= i < |ts[0]| ==> !IsSpace(ts[0][i]);
    }
  }

  /** One written line: a single line of text whose tokens are `0` followed
      by the input line's tokens after the first, backslashes turned into
      `/`, joined by single spaces. */
  lemma OutputLineShape(ts: seq<string>)
    requires ts != [] && AllTokens(ts)
    ensures var out := OutputLine(Relabel(ts));
            && IsLine(out)
            && Tokens(out) == ["0"] + SlashesAll(ts[1..])
            && out == Join(Tokens(out)) + "\n"
            && NoBackslash(out)
  {
    var relabelled := Relabel(ts);
    assert AllTokens(relabelled) by {
      assert forall j :: 1 <= j < |relabelled| ==> relabelled[j] == ts[j];
    }
    SlashesJoin(relabelled);
    var written := SlashesAll(relabelled);
    assert relabelled[1..] == ts[1..];
    SlashesNormalises("0");
    assert written == [Slashes("0")] + SlashesAll(relabelled[1..]);
    JoinNoNewline(written);
    TokensOfJoin(written, "\n");
    SlashesNormalises(Join(relabelled));
  }

  /** A rewritten file has exactly as many lines as before, each ended by
      `\n`, and line `i` holds `0` followed by the tokens of input line `i`
      after its first, with backslashes turned into `/`. */
  predicate RelabelledLines(lines: seq<string>, out: seq<string>) {
    && |out| == |lines|
    && forall i :: 0 <= i < |out| ==>
         && IsLine(out[i])
         && Tokens(lines[i]) != []
         && Tokens(out[i]) == ["0"] + SlashesAll(Tokens(lines[i])[1..])
         && out[i] == Join(Tokens(out[i])) + "\n"
         && NoBackslash(out[i])
  }

  lemma RewrittenLines(text: string)
    requires RelabelText(text).Rewritten?
    ensures RelabelledLines(ReadLines(text), ReadLines(RelabelText(text).content))
  {
    var lines := ReadLines(text);
    var lists := LineTokens(lines);
    FirstEmptyIs(lists, |lists|);
    var written := NewLines(lists);
    forall i | 0 <= i < |lines|
      ensures IsLine(written[i])
      ensures Tokens(lines[i]) != []
      ensures Tokens(written[i]) == ["0"] + SlashesAll(Tokens(lines[i])[1..])
      ensures written[i] == Join(Tokens(written[i])) + "\n"
      ensures NoBackslash(written[i])
    {
      TokensAreTokens(lines[i]);
      OutputLineShape(Tokens(lines[i]));
    }
    ReadLinesOfConcat(written);
  }

  /** A line in the form the rewrite writes is written back unchanged. */
  lemma FixedLine(l: string)
    requires Tokens(l) != [] && Tokens(l)[0] == "0"
    requires l == Join(Tokens(l)) + "\n" && NoBackslash(l)
    ensures OutputLine(Relabel(Tokens(l))) == l
  {
    var ts := Tokens(l);
    assert Relabel(ts) == ts;
    var joined := Join(ts);
    assert NoBackslash(joined) by {
      forall c | 0 <= c < |joined| ensures joined[c] != '\\' {
        assert joined[c] == l[c];
      }
    }
    SlashesNormalises(joined);
  }

  /** Relabelling is idempotent: a rewritten file is rewritten to itself. */
  lemma RelabelIdempotent(text: string)
    requires RelabelText(text).Rewritten?
    ensures RelabelText(RelabelText(text).content) == RelabelText(text)
  {
    var content := RelabelText(text).content;
    var out := ReadLines(content);
    RewrittenLines(text);
    ReadLinesConcat(content);
    var lists := LineTokens(out);
    forall i | 0 <= i < |out| ensures lists[i] != [] && OutputLine(Relabel(lists[i])) == out[i] {
      FixedLine(out[i]);
    }
    FirstEmptyIs(lists, |lists|);
    assert NewLines(lists) == out;
  }

  /** The write loop: one `write` per token list, in order. */
  method WriteLines(lists: seq<seq<string>>) returns (content: string)
    ensures content == Concat(OutputLines(lists))
  {
    ghost var written := OutputLines(lists);
    content := "";
    var i := 0;
    while i < |lists|
      invariant 0 <= i <= |lists|
      invariant content == Concat(written[..i])
    {
      ConcatSnoc(written[..i], written[i]);
      assert written[..i + 1] == written[..i] + [written[i]];
      content := content + Slashes(Join(lists[i])) + "\n";
      i := i + 1;
    }
    assert written[..i] == written;
  }

  /** The per-file body of `modify_to_class_boat`: the lines are split into
      token lists, the first token of each list is overwritten in a loop, and
      the lists are written back one line at a time. */
  method ModifyFile(text: string) returns (r: Rewrite)
    ensures r == RelabelText(text)
  {
    var lines := ReadLines(text);
    if lines == [] {
      return Unchanged;
    }
    var lists := LineTokens(lines);
    var modified := new seq<string>[|lists|](j requires 0 <= j < |lists| => lists[j]);
    var i := 0;
    while i < modified.Length
      invariant 0 <= i <= modified.Length == |lists|
      invariant forall j :: 0 <= j < i ==> lists[j] != [] && modified[j] == Relabel(lists[j])
      invariant forall j :: i <= j < |lists| ==> modified[j] == lists[j]
    {
      if modified[i] == [] {
        FirstEmptyIs(lists, i);
        return IndexError(i);
      }
      modified[i] := ["0"] + modified[i][1..];
      i := i + 1;
    }
    FirstEmptyIs(lists, |lists|);
    assert modified[..] == RelabelAll(lists);
    var content := WriteLines(modified[..]);
    r := Rewritten(content);
  }

  // ---------------------------------------------------------------------
  // The folder pass
  // ---------------------------------------------------------------------

  /** A file that settles under relabelling: running the rewrite on it
      changes nothing. */
  predicate Settled(text: string) {
    RelabelText(text) == Unchanged || RelabelText(text) == Rewritten(text)
  }

  /** Whatever the rewrite leaves in a file is settled. */
  lemma RewriteSettles(text: string)
    ensures RelabelText(text).Unchanged? ==> Settled(text)
    ensures RelabelText(text).Rewritten? ==> Settled(RelabelText(text).content)
  {
    if RelabelText(text).Rewritten? {
      RelabelIdempotent(text);
    }
  }

  /** The path a listed name is opened at. */
  function TxtPath(folder: string, name: string): (p: string)
    ensures NoBackslash(p)
  {
    SlashesNormalises(PathJoin(folder, name));
    Slashes(PathJoin(folder, name))
  }

  /** `TxtPath` in the folder, as the function of the name the pass uses. */
  function OpenPaths(folder: string): string -> string {
    name => TxtPath(folder, name)
  }

  /** Why a folder pass stops: `open` finds no file at the path, or a line
      of the file has no token and `line[0] = '0'` raises. */
  datatype Failure = NotFound(path: string) | BadLine(path: string, line: nat)

  /** The files of the folder, by path, and the exception that ended the
      pass, if any. */
  datatype Run = Run(files: map<string, string>, failure: Option<Failure>)

  /** One iteration of the pass over the listing; `pathOf` gives the path
      a name is opened at, `OpenPaths(folder)` in the pass itself, and
      `rewrite` is the per-file rewrite, `RelabelText` in the pass itself. */
  function Step(pathOf: string -> string, name: string, files: map<string, string>, rewrite: string -> Rewrite): (r: Run)
    ensures r.files.Keys == files.Keys
  {
    if !EndsWith(name, ".txt") then Run(files, None)
    else
      var path := pathOf(name);
      if path !in files then Run(files, Some(NotFound(path)))
      else
        match rewrite(files[path])
        case Unchanged => Run(files, None)
        case IndexError(k) => Run(files, Some(BadLine(path, k)))
        case Rewritten(content) => Run(files[path := content], None)
  }

  /** The pass over `names` in listing order, stopping at the first
      exception. */
  function RunFolder(pathOf: string -> string, names: seq<string>, files: map<string, string>, rewrite: string -> Rewrite): (r: Run)
    ensures r.files.Keys == files.Keys
  {
    if names == [] then Run(files, None)
    else
      var first := Step(pathOf, names[0], files, rewrite);
      if first.failure.Some? then first
      else RunFolder(pathOf, names[1..], first.files, rewrite)
  }

  /** The `.txt` names of the listing, as the paths they are opened at. */
  function OpenedPaths(pathOf: string -> string, names: seq<string>): set<string> {
    set i | 0 <= i < |names| && EndsWith(names[i], ".txt") :: pathOf(names[i])
  }

  lemma OpenedPathsSplit(pathOf: string -> string, names: seq<string>)
    requires names != []
    ensures OpenedPaths(pathOf, names) ==
      OpenedPaths(pathOf, names[1..]) + (if EndsWith(names[0], ".txt") then {pathOf(names[0])} else {})
  {
    var rest := names[1..];
    forall p | p in OpenedPaths(pathOf, rest) ensures p in OpenedPaths(pathOf, names) {
      var i :| 0 <= i < |rest| && EndsWith(rest[i], ".txt") && p == pathOf(rest[i]);
      assert names[i + 1] == rest[i];
    }
    forall i | 0 < i < |names| && EndsWith(names[i], ".txt")
      ensures pathOf(names[i]) in OpenedPaths(pathOf, rest)
    {
      assert rest[i - 1] == names[i];
    }
  }

  /** The pass creates no file and removes none, and every file not opened
      for a `.txt` name of the listing keeps its content. */
  lemma {:induction false} RunFolderFrame(pathOf: string -> string, names: seq<string>, files: map<string, string>, rewrite: string -> Rewrite)
    ensures var r := RunFolder(pathOf, names, files, rewrite);
            && r.files.Keys == files.Keys
            && forall p :: p in files && p !in OpenedPaths(pathOf, names) ==> r.files[p] == files[p]
  {
    if names != [] {
      var first := Step(pathOf, names[0], files, rewrite);
      OpenedPathsSplit(pathOf, names);
      if first.failure == None {
        RunFolderFrame(pathOf, names[1..], first.files, rewrite);
      }
    }
  }

  /** After a pass without exception, every `.txt` file of the listing is
      settled. */
  lemma {:induction false} RunFolderSettles(pathOf: string -> string, names: seq<string>, files: map<string, string>)
    requires RunFolder(pathOf, names, files, RelabelText).failure == None
    ensures var r := RunFolder(pathOf, names, files, RelabelText);
            forall p :: p in OpenedPaths(pathOf, names) ==> p in r.files && Settled(r.files[p])
  {
    if names != [] {
      var first := Step(pathOf, names[0], files, RelabelText);
      var r := RunFolder(pathOf, names[1..], first.files, RelabelText);
      OpenedPathsSplit(pathOf, names);
      RunFolderSettles(pathOf, names[1..], first.files);
      RunFolderFrame(pathOf, names[1..], first.files, RelabelText);
      if EndsWith(names[0], ".txt") {
        var path := pathOf(names[0]);
        RewriteSettles(files[path]);
        assert Settled(first.files[path]);
      }
    }
  }

  /** A pass over files that are all settled changes nothing and raises
      nothing. */
  lemma {:induction false} RunFolderOfSettled(pathOf: string -> string, names: seq<string>, files: map<string, string>)
    requires forall p :: p in OpenedPaths(pathOf, names) ==> p in files && Settled(files[p])
    ensures RunFolder(pathOf, names, files, RelabelText) == Run(files, None)
  {
    if names != [] {
      OpenedPathsSplit(pathOf, names);
      if EndsWith(names[0], ".txt") {
        var path := pathOf(names[0]);
        assert path in OpenedPaths(pathOf, names);
        assert files[path := files[path]] == files;
      }
      assert Step(pathOf, names[0], files, RelabelText) == Run(files, None);
      RunFolderOfSettled(pathOf, names[1..], files);
    }
  }

  /** Running the pass again on a folder it went through without exception
      leaves every file as it is. */
  lemma RunFolderIdempotent(pathOf: string -> string, names: seq<string>, files: map<string, string>)
    requires RunFolder(pathOf, names, files, RelabelText).failure == None
    ensures var r := RunFolder(pathOf, names, files, RelabelText);
            RunFolder(pathOf, names, r.files, RelabelText) == Run(r.files, None)
  {
    RunFolderSettles(pathOf, names, files);
    RunFolderOfSettled(pathOf, names, RunFolder(pathOf, names, files, RelabelText).files);
  }

  /** One iteration of `modify_to_class_boat`'s loop. */
  method ModifyListed(folder: string, name: string, files: map<string, string>) returns (step: Run)
    ensures step == Step(OpenPaths(folder), name, files, RelabelText)
  {
    if !EndsWith(name, ".txt") {
      return Run(files, None);
    }
    var path := TxtPath(folder, name);
    if path !in files {
      return Run(files, Some(NotFound(path)));
    }
    var r := ModifyFile(files[path]);
    match r
    case Unchanged =>
      step := Run(files, None);
    case IndexError(k) =>
      step := Run(files, Some(BadLine(path, k)));
    case Rewritten(content) =>
      step := Run(files[path := content], None);
  }

  /** `modify_to_class_boat`: for each listed `.txt` name, open the file,
      rewrite it when it has lines, and let an exception end the pass. */
  method ModifyToClassBoat(folder: string, names: seq<string>, files: map<string, string>)
    returns (run: Run)
    ensures run == RunFolder(OpenPaths(folder), names, files, RelabelText)
  {
    var current := files;
    var i := 0;
    while i < |names|
      invariant 0 <= i <= |names|
      invariant RunFolder(OpenPaths(folder), names, files, RelabelText) == RunFolder(OpenPaths(folder), names[i..], current, RelabelText)
    {
      var step := ModifyListed(folder, names[i], current);
      assert names[i..][1..] == names[i + 1..];
      if step.failure.Some? {
        return step;
      }
      current := step.files;
      i := i + 1;
    }
    run := Run(current, None);
  }
}
