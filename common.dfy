/** Shared vocabulary: failure-compatible wrappers and the handful of Python
    string and path operations the scripts rely on, stated over `seq<char>`. */
module Common {

  datatype Option<+T> = None | Some(value: T)

  datatype Result<+T, +E> = Ok(value: T) | Err(error: E)

  predicate StartsWith(s: string, prefix: string) {
    |prefix| <= |s| && s[..|prefix|] == prefix
  }

  /** Python's `s.endswith(suffix)`. */
  predicate EndsWith(s: string, suffix: string) {
    |suffix| <= |s| && s[|s| - |suffix|..] == suffix
  }

  /** The characters for which Python's `str.isspace()` holds; `str.split()`
      with no argument and `str.strip()` cut on exactly these. */
  predicate IsSpace(c: char) {
    c == ' ' || ('\t' <= c <= '\r') || ('\U{1C}' <= c <= '\U{1F}')
    || c == '\U{85}' || c == '\U{A0}' || c == '\U{1680}'
    || ('\U{2000}' <= c <= '\U{200A}') || c == '\U{2028}' || c == '\U{2029}'
    || c == '\U{202F}' || c == '\U{205F}' || c == '\U{3000}'
  }

  predicate NoSpace(s: string) {
    forall i :: 0 <= i < |s| ==> !IsSpace(s[i])
  }

  predicate NoBackslash(s: string) {
    forall i :: 0 <= i < |s| ==> s[i] != '\\'
  }

  /** Python's `s.replace(pat, rep)`: every non-overlapping occurrence of
      `pat`, found scanning from the left, is replaced by `rep`. */
  function Replace(s: string, pat: string, rep: string): (r: string)
    requires pat != []
    ensures |rep| == |pat| ==> |r| == |s|
    decreases |s|
  {
    if |s| < |pat| then s
    else if s[..|pat|] == pat then rep + Replace(s[|pat|..], pat, rep)
    else [s[0]] + Replace(s[1..], pat, rep)
  }

  /** `s.replace("\\", "/")`, the path normalisation every script applies. */
  function Slashes(s: string): string {
    Replace(s, "\\", "/")
  }

  /** Replacing the one-character `\` by the one-character `/` works character
      by character: the length is kept, every backslash becomes a slash and
      every other character is left as it is. */
  lemma {:induction false} SlashesAt(s: string)
    ensures |Slashes(s)| == |s|
    ensures forall i :: 0 <= i < |s| ==>
      Slashes(s)[i] == (if s[i] == '\\' then '/' else s[i])
  {
    if |s| > 0 {
      SlashesAt(s[1..]);
      if s[..1] == "\\" {
        assert Slashes(s) == "/" + Slashes(s[1..]);
      } else {
        assert Slashes(s) == [s[0]] + Slashes(s[1..]);
      }
    }
  }

  lemma SlashesNormalises(s: string)
    ensures NoBackslash(Slashes(s))
    ensures Slashes(Slashes(s)) == Slashes(s)
    ensures NoBackslash(s) ==> Slashes(s) == s
  {
    SlashesAt(s);
    SlashesAt(Slashes(s));
  }

  lemma SlashesAppend(a: string, b: string)
    ensures Slashes(a + b) == Slashes(a) + Slashes(b)
  {
    SlashesAt(a);
    SlashesAt(b);
    SlashesAt(a + b);
  }

  /** `pat` occurs in `s` starting at position `k`. */
  predicate MatchAt(s: string, pat: string, k: nat) {
    k + |pat| <= |s| && s[k..k + |pat|] == pat
  }

  /** A string without any occurrence of `pat` is left unchanged by `Replace`. */
  lemma {:induction false} ReplaceAbsent(s: string, pat: string, rep: string)
    requires pat != []
    requires forall k: nat :: !MatchAt(s, pat, k)
    ensures Replace(s, pat, rep) == s
  {
    if |s| >= |pat| {
      assert !MatchAt(s, pat, 0);
      assert s[..|pat|] == s[0..|pat|];
      forall k: nat ensures !MatchAt(s[1..], pat, k) {
        assert !MatchAt(s, pat, k + 1);
        if k + |pat| <= |s[1..]| {
          assert s[1..][k..k + |pat|] == s[k + 1..k + 1 + |pat|];
        }
      }
      ReplaceAbsent(s[1..], pat, rep);
    }
  }

  /** When the only occurrence of `pat` in `x + pat` is the final one,
      `Replace` swaps that final occurrence for `rep` and keeps `x`: the
      `name.png` to `name.txt` step of the label lookup. */
  lemma {:induction false} ReplaceFinal(x: string, pat: string, rep: string)
    requires pat != []
    requires forall k: nat :: k < |x| ==> !MatchAt(x + pat, pat, k)
    ensures Replace(x + pat, pat, rep) == x + rep
  {
    var s := x + pat;
    if |x| == 0 {
      assert s[..|pat|] == pat;
      assert s[|pat|..] == [];
      assert Replace(s, pat, rep) == rep + Replace([], pat, rep);
    } else {
      assert !MatchAt(s, pat, 0);
      assert s[..|pat|] == s[0..|pat|];
      assert s[1..] == x[1..] + pat;
      forall k: nat | k < |x[1..]| ensures !MatchAt(x[1..] + pat, pat, k) {
        assert !MatchAt(s, pat, k + 1);
        assert (x[1..] + pat)[k..k + |pat|] == s[k + 1..k + 1 + |pat|];
      }
      ReplaceFinal(x[1..], pat, rep);
      assert [s[0]] + (x[1..] + rep) == x + rep;
    }
  }

  /** Python's `str.strip()` with no argument: whitespace removed at both ends. */
  function Strip(s: string): (r: string)
    ensures r == [] || (!IsSpace(r[0]) && !IsSpace(r[|r| - 1]))
    ensures |r| <= |s|
    decreases |s|
  {
    if |s| == 0 then s
    else if IsSpace(s[0]) then Strip(s[1..])
    else if IsSpace(s[|s| - 1]) then Strip(s[..|s| - 1])
    else s
  }

  /** The bounds of the slice `strip()` keeps. */
  lemma {:induction false} StripBounds(s: string) returns (i: nat, j: nat)
    ensures i <= j <= |s| && Strip(s) == s[i..j]
    ensures AllSpaceIn(s, 0, i) && AllSpaceIn(s, j, |s|)
    decreases |s|
  {
    if |s| == 0 {
      i, j := 0, 0;
    } else if IsSpace(s[0]) {
      var i', j' := StripBounds(s[1..]);
      i, j := i' + 1, j' + 1;
      assert s[1..][i'..j'] == s[i..j];
      ShiftSpace(s, i', j');
    } else if IsSpace(s[|s| - 1]) {
      i, j := StripBounds(s[..|s| - 1]);
      assert s[..|s| - 1][i..j] == s[i..j];
      DropSpace(s, i, j);
    } else {
      i, j := 0, |s|;
    }
  }

  predicate AllSpaceIn(s: string, lo: nat, hi: nat)
    requires lo <= hi <= |s|
  {
    forall k :: lo <= k < hi ==> IsSpace(s[k])
  }

  lemma ShiftSpace(s: string, i: nat, j: nat)
    requires s != [] && IsSpace(s[0]) && i <= j <= |s| - 1
    requires AllSpaceIn(s[1..], 0, i) && AllSpaceIn(s[1..], j, |s| - 1)
    ensures AllSpaceIn(s, 0, i + 1) && AllSpaceIn(s, j + 1, |s|)
  {
    forall k | 1 <= k < |s| ensures s[k] == s[1..][k - 1] { }
  }

  lemma DropSpace(s: string, i: nat, j: nat)
    requires s != [] && IsSpace(s[|s| - 1]) && i <= j <= |s| - 1
    requires AllSpaceIn(s[..|s| - 1], 0, i) && AllSpaceIn(s[..|s| - 1], j, |s| - 1)
    ensures AllSpaceIn(s, 0, i) && AllSpaceIn(s, j, |s|)
  {
    forall k | 0 <= k < |s| - 1 ensures s[k] == s[..|s| - 1][k] { }
  }

  /** `strip()` removes whitespace and only whitespace, and only at the two
      ends: its result is a slice `s[i..j]` with nothing but whitespace
      before `i` and after `j`. */
  lemma StripTrims(s: string)
    ensures exists i: nat, j: nat ::
              i <= j <= |s| && Strip(s) == s[i..j] && AllSpaceIn(s, 0, i) && AllSpaceIn(s, j, |s|)
  {
    var i, j := StripBounds(s);
  }

  /** POSIX `os.path.join(a, b)`: an absolute `b` replaces `a`; otherwise a
      single `/` separates them unless `a` is empty or already ends in one. */
  function PathJoin(a: string, b: string): (r: string)
    ensures EndsWith(r, b)
    ensures !StartsWith(b, "/") && a != [] ==> StartsWith(r, a)
  {
    if StartsWith(b, "/") then b
    else if a == [] || EndsWith(a, "/") then a + b
    else a + "/" + b
  }

  function DigitChar(d: nat): (c: char)
    requires d < 10
    ensures '0' <= c <= '9' && c as int - '0' as int == d
  {
    ('0' as int + d) as char
  }

  predicate IsDigits(s: string) {
    forall i :: 0 <= i < |s| ==> '0' <= s[i] <= '9'
  }

  /** The number a string of decimal digits denotes. */
  function DigitsValue(s: string): nat
    requires IsDigits(s)
  {
    if s == [] then 0
    else DigitsValue(s[..|s| - 1]) * 10 + (s[|s| - 1] as int - '0' as int)
  }

  /** Decimal text of a natural number, as Python's `str` writes it. */
  function NatToString(n: nat): (r: string)
    ensures r != []
    ensures IsDigits(r)
  {
    if n < 10 then [DigitChar(n)] else NatToString(n / 10) + [DigitChar(n % 10)]
  }

  /** Decimal text of an integer, as Python's `str` or an f-string writes it. */
  function IntToString(n: int): (r: string)
    ensures r != []
    ensures forall i :: 0 <= i < |r| ==> r[i] == '-' || '0' <= r[i] <= '9'
  {
    if n < 0 then "-" + NatToString(-n) else NatToString(n)
  }

  /** `str(n)` for a natural number reads back as `n`, and has no leading
      zero unless it is `"0"`. */
  lemma {:induction false} NatToStringValue(n: nat)
    ensures DigitsValue(NatToString(n)) == n
    ensures NatToString(n)[0] == '0' ==> n == 0
  {
    if n >= 10 {
      NatToStringValue(n / 10);
      var r := NatToString(n);
      assert r[..|r| - 1] == NatToString(n / 10);
    }
  }

  /** `str(n)` is the digits of `|n|`, with a `-` in front exactly when `n`
      is negative. */
  lemma IntToStringValue(n: int)
    ensures var r := IntToString(n);
      && (n < 0 <==> r[0] == '-')
      && (n < 0 ==> IsDigits(r[1..]) && DigitsValue(r[1..]) == -n)
      && (n >= 0 ==> IsDigits(r) && DigitsValue(r) == n)
  {
    if n < 0 {
      NatToStringValue(-n);
      assert IntToString(n)[1..] == NatToString(-n);
    } else {
      NatToStringValue(n);
    }
  }
}
