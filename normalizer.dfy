/**
 * The string normaliser of the enum evaluator (`normalize_string`): every
 * character other than an ASCII letter, an ASCII digit or whitespace becomes a
 * space, each run of whitespace becomes one space, and the result is stripped
 * and lower-cased.
 */
module Normalizer {

  /** The characters Python's `\s` matches in a `str` pattern (and `str.strip()` removes). */
  predicate IsSpace(c: char) {
    var n := c as int;
    n == 0x20 || 0x09 <= n <= 0x0D || 0x1C <= n <= 0x1F || n == 0x85 || n == 0xA0
    || n == 0x1680 || 0x2000 <= n <= 0x200A || n == 0x2028 || n == 0x2029
    || n == 0x202F || n == 0x205F || n == 0x3000
  }

  /** The class `[a-zA-Z0-9]` (ASCII only, as the pattern has no flags). */
  predicate IsAsciiAlnum(c: char) {
    'a' <= c <= 'z' || 'A' <= c <= 'Z' || '0' <= c <= '9'
  }

  /** The only characters a normalised string may hold: `[a-z0-9 ]`. */
  predicate IsNormalChar(c: char) {
    'a' <= c <= 'z' || '0' <= c <= '9' || c == ' '
  }

  /** ASCII lower-casing of one character. */
  function LowerChar(c: char): (r: char)
    ensures 'A' <= c <= 'Z' ==> 'a' <= r <= 'z' && r as int == c as int + 32
    ensures !('A' <= c <= 'Z') ==> r == c
  {
    if 'A' <= c <= 'Z' then (c as int + 32) as char else c
  }

  /** No two spaces in a row. */
  predicate NoDoubleSpace(t: string) {
    forall i :: 0 <= i < |t| - 1 ==> !(t[i] == ' ' && t[i + 1] == ' ')
  }

  /** What `normalize_string` can return. */
  predicate Canonical(t: string) {
    && (forall i :: 0 <= i < |t| ==> IsNormalChar(t[i]))
    && (|t| > 0 ==> t[0] != ' ' && t[|t| - 1] != ' ')
    && NoDoubleSpace(t)
  }

  /** `re.sub(r'[^a-zA-Z0-9\s]', ' ', s)`. */
  function ReplaceNonWord(s: string): (r: string)
    ensures |r| == |s|
    ensures forall i :: 0 <= i < |s| ==> r[i] == (if IsAsciiAlnum(s[i]) || IsSpace(s[i]) then s[i] else ' ')
  {
    seq(|s|, i requires 0 <= i < |s| => if IsAsciiAlnum(s[i]) || IsSpace(s[i]) then s[i] else ' ')
  }

  /** The index of the first character at or after `k` that is not whitespace (`|s|` if none). */
  function SkipSpaceForward(s: string, k: nat): (n: nat)
    requires k <= |s|
    ensures k <= n <= |s|
    ensures forall i :: k <= i < n ==> IsSpace(s[i])
    ensures n < |s| ==> !IsSpace(s[n])
    decreases |s| - k
  {
    if k < |s| && IsSpace(s[k]) then SkipSpaceForward(s, k + 1) else k
  }

  /** The index just past the last character before `k` that is not whitespace (0 if none). */
  function SkipSpaceBackward(s: string, k: nat): (n: nat)
    requires k <= |s|
    ensures n <= k
    ensures forall i :: n <= i < k ==> IsSpace(s[i])
    ensures n > 0 ==> !IsSpace(s[n - 1])
    decreases k
  {
    if k > 0 && IsSpace(s[k - 1]) then SkipSpaceBackward(s, k - 1) else k
  }

  /** Removes leading whitespace (the left half of `str.strip()`). */
  function DropLeadingSpace(s: string): (r: string)
    ensures |r| <= |s| && r == s[|s| - |r|..]
    ensures r != [] ==> !IsSpace(r[0])
    ensures forall i :: 0 <= i < |s| - |r| ==> IsSpace(s[i])
    ensures s != [] && IsSpace(s[0]) ==> |r| < |s|
  {
    s[SkipSpaceForward(s, 0)..]
  }

  /** Removes trailing whitespace (the right half of `str.strip()`). */
  function DropTrailingSpace(s: string): (r: string)
    ensures |r| <= |s| && r == s[..|r|]
    ensures r != [] ==> !IsSpace(r[|r| - 1])
    ensures forall i :: |r| <= i < |s| ==> IsSpace(s[i])
  {
    s[..SkipSpaceBackward(s, |s|)]
  }

  /** Every character is whitespace. */
  predicate AllSpace(t: string) {
    forall j :: 0 <= j < |t| ==> IsSpace(t[j])
  }

  /**
   * `str.strip()`: the result is a slice of the input with only whitespace
   * around it, and with no whitespace at either of its own ends.
   */
  function Strip(s: string): (r: string)
    ensures |r| <= |s|
    ensures exists i :: SliceInSpace(s, r, i)
    ensures r != [] ==> !IsSpace(r[0]) && !IsSpace(r[|r| - 1])
    ensures NonSpace(r) == NonSpace(s)
  {
    var a := DropLeadingSpace(s);
    DroppedSpacePrefix(s, |s| - |a|);
    var r := DropTrailingSpace(a);
    DroppedSpaceSuffix(a, |r|);
    StrippedSlice(s, a, r);
    r
  }

  /** `r` is the slice of `s` starting at `i`, with only whitespace before and after it. */
  predicate SliceInSpace(s: string, r: string, i: int) {
    0 <= i <= |s| - |r| && r == s[i..i + |r|] && AllSpace(s[..i]) && AllSpace(s[i + |r|..])
  }

  lemma StrippedSlice(s: string, a: string, r: string)
    requires |a| <= |s| && a == s[|s| - |a|..] && forall i :: 0 <= i < |s| - |a| ==> IsSpace(s[i])
    requires |r| <= |a| && r == a[..|r|] && forall i :: |r| <= i < |a| ==> IsSpace(a[i])
    ensures SliceInSpace(s, r, |s| - |a|)
  {
    var k := |s| - |a|;
    assert s[k + |r|..] == a[|r|..];
  }

  /** The characters of `s` that are not whitespace, in order. */
  function NonSpace(s: string): (r: string)
    ensures |r| <= |s|
  {
    if s == [] then [] else (if IsSpace(s[0]) then [] else [s[0]]) + NonSpace(s[1..])
  }

  lemma NonSpaceCons(c: char, t: string)
    ensures NonSpace([c] + t) == (if IsSpace(c) then [] else [c]) + NonSpace(t)
  {
    assert ([c] + t)[1..] == t;
  }

  lemma {:induction false} NonSpaceOfSpaces(s: string)
    requires forall i :: 0 <= i < |s| ==> IsSpace(s[i])
    ensures NonSpace(s) == []
    decreases |s|
  {
    if s != [] {
      NonSpaceOfSpaces(s[1..]);
    }
  }

  /** Dropping a leading run of whitespace keeps the other characters. */
  lemma {:induction false} DroppedSpacePrefix(s: string, k: nat)
    requires k <= |s| && forall i :: 0 <= i < k ==> IsSpace(s[i])
    ensures NonSpace(s[k..]) == NonSpace(s)
    decreases k
  {
    if k == 0 {
      assert s[k..] == s;
    } else {
      assert s[1..][k - 1..] == s[k..];
      DroppedSpacePrefix(s[1..], k - 1);
    }
  }

  /** Dropping a trailing run of whitespace keeps the other characters. */
  lemma {:induction false} DroppedSpaceSuffix(s: string, k: nat)
    requires k <= |s| && forall i :: k <= i < |s| ==> IsSpace(s[i])
    ensures NonSpace(s[..k]) == NonSpace(s)
    decreases k
  {
    if k == 0 {
      NonSpaceOfSpaces(s);
    } else {
      assert s[..k][1..] == s[1..][..k - 1];
      DroppedSpaceSuffix(s[1..], k - 1);
    }
  }

  /** `re.sub(r'\s+', ' ', s)`: each maximal run of whitespace becomes one space. */
  function Collapse(s: string): (r: string)
    ensures s == [] <==> r == []
    ensures s != [] && IsSpace(s[0]) ==> r[0] == ' '
    ensures s != [] && !IsSpace(s[0]) ==> r[0] == s[0]
    ensures forall i :: 0 <= i < |r| ==> r[i] == ' ' || (r[i] in s && !IsSpace(r[i]))
    ensures NoDoubleSpace(r)
    ensures NonSpace(r) == NonSpace(s)
    decreases |s|
  {
    if s == [] then []
    else if IsSpace(s[0]) then
      var d := DropLeadingSpace(s);
      var rest := Collapse(d);
      NonSpaceCons(' ', rest);
      DroppedSpacePrefix(s, |s| - |d|);
      [' '] + rest
    else
      var rest := Collapse(s[1..]);
      NonSpaceCons(s[0], rest);
      [s[0]] + rest
  }

  /** ASCII `str.lower()`; after `ReplaceNonWord` no other letter is left to lower. */
  function Lower(s: string): (r: string)
    ensures |r| == |s|
    ensures forall i :: 0 <= i < |s| ==> r[i] == LowerChar(s[i])
  {
    seq(|s|, i requires 0 <= i < |s| => LowerChar(s[i]))
  }

  /**
   * `normalize_string`: the empty string stays empty; otherwise the three
   * substitutions in order, then strip and lower-case. The result is
   * canonical and, with its spaces taken out, is the input's ASCII letters
   * and digits, in order and lower-cased: punctuation and whitespace only
   * ever decide where the single spaces go.
   */
  function Normalize(s: string): (r: string)
    ensures s == "" ==> r == ""
    ensures Canonical(r)
    ensures NonSpace(r) == Lower(AlnumOf(s))
  {
    if s == "" then ""
    else
      var w := ReplaceNonWord(s);
      var t := Collapse(w);
      CollapseOfReplaced(s);
      ReplaceKeepsAlnum(s);
      var u := Strip(t);
      StripKeepsText(t);
      LowerOfStripped(u);
      LowerKeepsText(u);
      Lower(u)
  }

  /** Lower-casing a stripped, collapsed text of spaces, letters and digits yields a canonical string. */
  lemma LowerOfStripped(u: string)
    requires forall i :: 0 <= i < |u| ==> u[i] == ' ' || IsAsciiAlnum(u[i])
    requires |u| > 0 ==> u[0] != ' ' && u[|u| - 1] != ' '
    requires NoDoubleSpace(u)
    ensures Canonical(Lower(u))
  {
    var l := Lower(u);
    forall i | 0 <= i < |u| ensures IsNormalChar(l[i]) && (l[i] == ' ' <==> u[i] == ' ') {
      assert l[i] == LowerChar(u[i]);
    }
  }

  /** After the first substitution and the collapse, only spaces and ASCII letters and digits remain. */
  lemma CollapseOfReplaced(s: string)
    ensures forall i :: 0 <= i < |Collapse(ReplaceNonWord(s))| ==>
      var c := Collapse(ReplaceNonWord(s))[i]; c == ' ' || IsAsciiAlnum(c)
  {
    var w := ReplaceNonWord(s);
    forall c | c in w && !IsSpace(c) ensures IsAsciiAlnum(c) {
      var k :| 0 <= k < |w| && w[k] == c;
    }
  }

  /** Stripping a collapsed text keeps its characters and its single spacing, and leaves no space at the ends. */
  lemma StripKeepsText(t: string)
    requires forall i :: 0 <= i < |t| ==> t[i] == ' ' || IsAsciiAlnum(t[i])
    requires NoDoubleSpace(t)
    ensures var u := Strip(t);
      && (forall i :: 0 <= i < |u| ==> u[i] == ' ' || IsAsciiAlnum(u[i]))
      && (|u| > 0 ==> u[0] != ' ' && u[|u| - 1] != ' ')
      && NoDoubleSpace(u)
  {
    var a := DropLeadingSpace(t);
    var u := DropTrailingSpace(a);
    var k := |t| - |a|;
    assert a == t[k..];
    assert u == a[..|u|];
    assert forall i :: 0 <= i < |u| ==> u[i] == t[k + i];
    if |u| > 0 {
      assert u[0] == a[0];
      assert !IsSpace(u[0]) && !IsSpace(u[|u| - 1]);
    }
  }

  /** No ASCII letter or digit is whitespace. */
  lemma AlnumIsNotSpace(c: char)
    requires IsAsciiAlnum(c)
    ensures !IsSpace(c)
  {
    assert 48 <= c as int <= 57 || 65 <= c as int <= 90 || 97 <= c as int <= 122;
  }

  /** Dropping the whitespace before a single leading space stops at the next character when that is not whitespace. */
  lemma RestartsAtText(t: string)
    requires t != [] && IsSpace(t[0])
    requires |t| > 1 ==> !IsSpace(t[1])
    ensures DropLeadingSpace(t) == t[1..]
  {
    assert SkipSpaceForward(t, 0) == SkipSpaceForward(t, 1) == 1;
  }

  /** A string whose only whitespace is single spaces is left as it is by the collapse. */
  lemma {:induction false} CollapseFixed(t: string)
    requires forall i :: 0 <= i < |t| ==> IsSpace(t[i]) ==> t[i] == ' '
    requires NoDoubleSpace(t)
    ensures Collapse(t) == t
    decreases |t|
  {
    if t != [] {
      var rest := t[1..];
      assert t == [t[0]] + rest;
      assert forall i :: 0 <= i < |rest| ==> rest[i] == t[i + 1];
      assert NoDoubleSpace(rest);
      CollapseFixed(rest);
      if IsSpace(t[0]) {
        if rest != [] {
          assert rest[0] == t[1] && t[0] == ' ';
          assert !IsSpace(rest[0]);
        }
        RestartsAtText(t);
        assert Collapse(t) == [' '] + Collapse(rest);
      } else {
        assert Collapse(t) == [t[0]] + rest;
      }
    }
  }

  /** The first substitution leaves a string of spaces, ASCII letters and digits unchanged. */
  lemma ReplaceFixed(t: string)
    requires forall i :: 0 <= i < |t| ==> t[i] == ' ' || IsAsciiAlnum(t[i])
    ensures ReplaceNonWord(t) == t
  {
    var w := ReplaceNonWord(t);
    forall i | 0 <= i < |t| ensures w[i] == t[i] {
      assert t[i] == ' ' || IsAsciiAlnum(t[i]);
    }
  }

  /** Lower-casing leaves a string of `[a-z0-9 ]` unchanged. */
  lemma LowerFixed(t: string)
    requires forall i :: 0 <= i < |t| ==> IsNormalChar(t[i])
    ensures Lower(t) == t
  {
    var l := Lower(t);
    forall i | 0 <= i < |t| ensures l[i] == t[i] {
      assert IsNormalChar(t[i]);
    }
  }

  /** Stripping a string with no space at either end, and no other whitespace, changes nothing. */
  lemma StripFixed(t: string)
    requires |t| > 0 ==> t[0] == ' ' || IsAsciiAlnum(t[0])
    requires |t| > 0 ==> t[|t| - 1] == ' ' || IsAsciiAlnum(t[|t| - 1])
    requires |t| > 0 ==> t[0] != ' ' && t[|t| - 1] != ' '
    ensures Strip(t) == t
  {
    if |t| > 0 {
      AlnumIsNotSpace(t[0]);
      AlnumIsNotSpace(t[|t| - 1]);
      assert DropLeadingSpace(t) == t;
    }
  }

  /** Normalising an already normalised string changes nothing. */
  lemma CanonicalIsFixed(t: string)
    requires Canonical(t)
    ensures Normalize(t) == t
  {
    if t != "" {
      forall i | 0 <= i < |t| ensures t[i] == ' ' || IsAsciiAlnum(t[i]) {
        assert IsNormalChar(t[i]);
      }
      ReplaceFixed(t);
      forall i | 0 <= i < |t| ensures IsSpace(t[i]) ==> t[i] == ' ' {
        if t[i] != ' ' {
          AlnumIsNotSpace(t[i]);
        }
      }
      CollapseFixed(t);
      StripFixed(t);
      LowerFixed(t);
    }
  }

  /** `normalize_string` is idempotent. */
  lemma NormalizeIdempotent(s: string)
    ensures Normalize(Normalize(s)) == Normalize(s)
  {
    CanonicalIsFixed(Normalize(s));
  }

  /** The ASCII letters and digits of `s`, in order. */
  function AlnumOf(s: string): (r: string)
    ensures |r| <= |s|
    ensures forall i :: 0 <= i < |r| ==> IsAsciiAlnum(r[i])
  {
    if s == [] then [] else (if IsAsciiAlnum(s[0]) then [s[0]] else []) + AlnumOf(s[1..])
  }

  /** After the first substitution, the characters that are not whitespace are exactly the ASCII letters and digits. */
  lemma {:induction false} ReplaceKeepsAlnum(s: string)
    ensures NonSpace(ReplaceNonWord(s)) == AlnumOf(s)
    decreases |s|
  {
    if s != [] {
      var w := ReplaceNonWord(s);
      assert w[1..] == ReplaceNonWord(s[1..]);
      ReplaceKeepsAlnum(s[1..]);
      if IsAsciiAlnum(s[0]) {
        AlnumIsNotSpace(s[0]);
      }
    }
  }

  /** Lower-casing neither creates nor removes whitespace. */
  lemma LowerCharSpace(c: char)
    ensures IsSpace(LowerChar(c)) == IsSpace(c)
  {
    if 'A' <= c <= 'Z' {
      AlnumIsNotSpace(c);
      AlnumIsNotSpace(LowerChar(c));
    }
  }

  lemma LowerAppend(a: string, b: string)
    ensures Lower(a + b) == Lower(a) + Lower(b)
  {
  }

  /** Lower-casing commutes with dropping whitespace. */
  lemma {:induction false} LowerKeepsText(u: string)
    ensures NonSpace(Lower(u)) == Lower(NonSpace(u))
    decreases |u|
  {
    if u != [] {
      var l := Lower(u);
      assert l[1..] == Lower(u[1..]);
      LowerCharSpace(u[0]);
      LowerKeepsText(u[1..]);
      var head := if IsSpace(u[0]) then [] else [u[0]];
      LowerAppend(head, NonSpace(u[1..]));
    }
  }

  /** Normalisation treats a character outside `[a-zA-Z0-9\s]` as a space. */
  lemma NormalizeIgnoresPunctuation(s: string, i: nat)
    requires i < |s| && !IsAsciiAlnum(s[i]) && !IsSpace(s[i])
    ensures Normalize(s[i := ' ']) == Normalize(s)
  {
    assert ReplaceNonWord(s[i := ' ']) == ReplaceNonWord(s);
  }

  lemma ReplaceOfLower(s: string)
    ensures ReplaceNonWord(Lower(s)) == Lower(ReplaceNonWord(s))
  {
    var a, b := ReplaceNonWord(Lower(s)), Lower(ReplaceNonWord(s));
    forall i | 0 <= i < |s| ensures a[i] == b[i] {
      LowerCharSpace(s[i]);
    }
  }

  lemma {:induction false} SkipForwardOfLower(s: string, k: nat)
    requires k <= |s|
    ensures SkipSpaceForward(Lower(s), k) == SkipSpaceForward(s, k)
    decreases |s| - k
  {
    if k < |s| {
      LowerCharSpace(s[k]);
      SkipForwardOfLower(s, k + 1);
    }
  }

  lemma {:induction false} SkipBackwardOfLower(s: string, k: nat)
    requires k <= |s|
    ensures SkipSpaceBackward(Lower(s), k) == SkipSpaceBackward(s, k)
    decreases k
  {
    if k > 0 {
      LowerCharSpace(s[k - 1]);
      SkipBackwardOfLower(s, k - 1);
    }
  }

  lemma DropLeadingOfLower(s: string)
    ensures DropLeadingSpace(Lower(s)) == Lower(DropLeadingSpace(s))
  {
    SkipForwardOfLower(s, 0);
  }

  lemma LowerTake(a: string, m: nat)
    requires m <= |a|
    ensures Lower(a)[..m] == Lower(a[..m])
  {
  }

  lemma StripOfLower(s: string)
    ensures Strip(Lower(s)) == Lower(Strip(s))
  {
    DropLeadingOfLower(s);
    var a := DropLeadingSpace(s);
    var la := Lower(a);
    SkipBackwardOfLower(a, |a|);
    var m := SkipSpaceBackward(a, |a|);
    assert DropTrailingSpace(la) == la[..m];
    LowerTake(a, m);
    assert Strip(Lower(s)) == DropTrailingSpace(la);
  }

  lemma {:induction false} CollapseOfLower(s: string)
    ensures Collapse(Lower(s)) == Lower(Collapse(s))
    decreases |s|
  {
    if s != [] {
      var l := Lower(s);
      LowerCharSpace(s[0]);
      if IsSpace(s[0]) {
        var d := DropLeadingSpace(s);
        DropLeadingOfLower(s);
        CollapseOfLower(d);
        LowerAppend([' '], Collapse(d));
      } else {
        assert l[1..] == Lower(s[1..]);
        CollapseOfLower(s[1..]);
        LowerAppend([s[0]], Collapse(s[1..]));
      }
    }
  }

  lemma LowerTwice(s: string)
    ensures Lower(Lower(s)) == Lower(s)
  {
  }

  /** Normalisation ignores ASCII case. */
  lemma NormalizeIgnoresCase(s: string)
    ensures Normalize(Lower(s)) == Normalize(s)
  {
    if s != "" {
      var w := ReplaceNonWord(s);
      ReplaceOfLower(s);
      CollapseOfLower(w);
      StripOfLower(Collapse(w));
      LowerTwice(Strip(Collapse(w)));
    }
  }

  /** Two strings that differ only in ASCII case normalise alike. */
  lemma SameUpToCase(a: string, b: string)
    requires Lower(a) == Lower(b)
    ensures Normalize(a) == Normalize(b)
  {
    NormalizeIgnoresCase(a);
    NormalizeIgnoresCase(b);
  }

  // ------------------------------------------------ where the single spaces go

  lemma ReplaceAppend(a: string, b: string)
    ensures ReplaceNonWord(a + b) == ReplaceNonWord(a) + ReplaceNonWord(b)
  {
    var l, r := ReplaceNonWord(a + b), ReplaceNonWord(a) + ReplaceNonWord(b);
    forall i | 0 <= i < |a + b| ensures l[i] == r[i] {
      if i < |a| {
        assert (a + b)[i] == a[i];
      } else {
        assert (a + b)[i] == b[i - |a|];
      }
    }
  }

  lemma {:induction false} SkipForwardAppend(a: string, t: string, k: nat)
    requires k <= |a| && SkipSpaceForward(a, k) < |a|
    ensures SkipSpaceForward(a + t, k) == SkipSpaceForward(a, k)
    decreases |a| - k
  {
    assert (a + t)[k] == a[k];
    if IsSpace(a[k]) {
      SkipForwardAppend(a, t, k + 1);
    }
  }

  /** Leading whitespace is dropped the same way when text follows a string that has a non-space last character. */
  lemma DropLeadingAppend(a: string, t: string)
    requires a != [] && !IsSpace(a[|a| - 1])
    ensures DropLeadingSpace(a + t) == DropLeadingSpace(a) + t
    ensures DropLeadingSpace(a) != [] && DropLeadingSpace(a)[|DropLeadingSpace(a)| - 1] == a[|a| - 1]
  {
    var n := SkipSpaceForward(a, 0);
    assert n < |a|;
    SkipForwardAppend(a, t, 0);
    assert (a + t)[n..] == a[n..] + t;
  }

  lemma {:induction false} SkipForwardRun(w: string, b: string, k: nat)
    requires k <= |w| && AllSpace(w) && (b != [] ==> !IsSpace(b[0]))
    ensures SkipSpaceForward(w + b, k) == |w|
    decreases |w| - k
  {
    if k < |w| {
      assert (w + b)[k] == w[k];
      SkipForwardRun(w, b, k + 1);
    } else if b != [] {
      assert (w + b)[k] == b[0];
    }
  }

  lemma {:induction false} SkipBackwardPrepend(t: string, y: string, k: nat)
    requires k <= |y| && SkipSpaceBackward(y, k) > 0
    ensures SkipSpaceBackward(t + y, |t| + k) == |t| + SkipSpaceBackward(y, k)
    decreases k
  {
    assert (t + y)[|t| + k - 1] == y[k - 1];
    if IsSpace(y[k - 1]) {
      SkipBackwardPrepend(t, y, k - 1);
    }
  }

  /** Trailing whitespace is dropped the same way when text precedes a string that has a non-space first character. */
  lemma DropTrailingPrepend(t: string, y: string)
    requires y != [] && !IsSpace(y[0])
    ensures DropTrailingSpace(t + y) == t + DropTrailingSpace(y)
  {
    var m := SkipSpaceBackward(y, |y|);
    assert m > 0;
    SkipBackwardPrepend(t, y, |y|);
    assert (t + y)[..|t| + m] == t + y[..m];
  }

  /** A collapsed text ends with the input's last character when that is not whitespace. */
  lemma {:induction false} CollapseLast(s: string)
    requires s != [] && !IsSpace(s[|s| - 1])
    ensures Collapse(s) != [] && Collapse(s)[|Collapse(s)| - 1] == s[|s| - 1]
    decreases |s|
  {
    if IsSpace(s[0]) {
      DropLeadingAppend(s, []);
      assert s + [] == s;
      CollapseLast(DropLeadingSpace(s));
    } else if |s| > 1 {
      CollapseLast(s[1..]);
    }
  }

  /**
   * A whitespace run between two texts becomes exactly one space: the collapse
   * of `a + w + b` is the collapse of `a`, one space, and the collapse of `b`.
   */
  lemma {:induction false} CollapseSplit(a: string, w: string, b: string)
    requires a != [] ==> !IsSpace(a[|a| - 1])
    requires w != [] && AllSpace(w)
    requires b != [] ==> !IsSpace(b[0])
    ensures Collapse(a + (w + b)) == Collapse(a) + [' '] + Collapse(b)
    decreases |a|, 1
  {
    if a == [] {
      assert a + (w + b) == w + b;
      CollapseRun(w, b);
    } else if IsSpace(a[0]) {
      CollapseSplitSpace(a, w, b);
    } else {
      CollapseSplitText(a, w, b);
    }
  }

  lemma {:induction false} CollapseSplitSpace(a: string, w: string, b: string)
    requires a != [] && IsSpace(a[0]) && !IsSpace(a[|a| - 1])
    requires w != [] && AllSpace(w)
    requires b != [] ==> !IsSpace(b[0])
    ensures Collapse(a + (w + b)) == Collapse(a) + [' '] + Collapse(b)
    decreases |a|, 0
  {
    var d := DropLeadingSpace(a);
    CollapseDropped(a, w + b);
    CollapseSplit(d, w, b);
    JoinAfterHead([' '], Collapse(a + (w + b)), Collapse(d + (w + b)), Collapse(a), Collapse(d), Collapse(b));
  }

  lemma {:induction false} CollapseSplitText(a: string, w: string, b: string)
    requires a != [] && !IsSpace(a[0]) && !IsSpace(a[|a| - 1])
    requires w != [] && AllSpace(w)
    requires b != [] ==> !IsSpace(b[0])
    ensures Collapse(a + (w + b)) == Collapse(a) + [' '] + Collapse(b)
    decreases |a|, 0
  {
    CollapseText(a, w + b);
    assert a[1..] != [] ==> a[1..][|a[1..]| - 1] == a[|a| - 1];
    CollapseSplit(a[1..], w, b);
    JoinAfterHead([a[0]], Collapse(a + (w + b)), Collapse(a[1..] + (w + b)), Collapse(a), Collapse(a[1..]), Collapse(b));
  }

  /** Sequence bookkeeping for `CollapseSplit`: a head in front of a split result. */
  lemma JoinAfterHead(h: string, cs: string, cd: string, ca: string, cd0: string, cb: string)
    requires cs == h + cd && cd == cd0 + [' '] + cb && ca == h + cd0
    ensures cs == ca + [' '] + cb
  {
  }

  /** A first character that is not whitespace is kept as it is, whatever follows. */
  lemma CollapseText(a: string, t: string)
    requires a != [] && !IsSpace(a[0])
    ensures Collapse(a + t) == [a[0]] + Collapse(a[1..] + t)
    ensures Collapse(a) == [a[0]] + Collapse(a[1..])
  {
    assert (a + t)[0] == a[0];
    assert (a + t)[1..] == a[1..] + t;
  }

  /** A whitespace run in front of text becomes one space. */
  lemma CollapseRun(w: string, b: string)
    requires w != [] && AllSpace(w)
    requires b != [] ==> !IsSpace(b[0])
    ensures Collapse(w + b) == [' '] + Collapse(b)
  {
    assert (w + b)[0] == w[0];
    SkipForwardRun(w, b, 0);
    assert (w + b)[|w|..] == b;
  }

  /** Leading whitespace before a string with a non-space last character is collapsed the same way when text follows. */
  lemma CollapseDropped(a: string, t: string)
    requires a != [] && IsSpace(a[0]) && !IsSpace(a[|a| - 1])
    ensures Collapse(a + t) == [' '] + Collapse(DropLeadingSpace(a) + t)
    ensures Collapse(a) == [' '] + Collapse(DropLeadingSpace(a))
    ensures |DropLeadingSpace(a)| < |a| && DropLeadingSpace(a) != []
    ensures !IsSpace(DropLeadingSpace(a)[|DropLeadingSpace(a)| - 1])
  {
    assert (a + t)[0] == a[0];
    DropLeadingAppend(a, t);
  }

  /** Stripping two texts joined by one space strips each of them. */
  lemma StripSplit(x: string, y: string)
    requires x != [] && !IsSpace(x[|x| - 1])
    requires y != [] && !IsSpace(y[0])
    ensures Strip(x + [' '] + y) == Strip(x) + [' '] + Strip(y)
  {
    assert x + [' '] + y == x + ([' '] + y);
    DropLeadingAppend(x, [' '] + y);
    var dx := DropLeadingSpace(x);
    assert dx + ([' '] + y) == (dx + [' ']) + y;
    DropTrailingPrepend(dx + [' '], y);
    assert SkipSpaceBackward(dx, |dx|) == |dx|;
    assert dx[..|dx|] == dx;
    assert SkipSpaceForward(y, 0) == 0;
    assert y[0..] == y;
  }

  /**
   * Normalisation separates words by exactly one space: text ending and text
   * starting with an ASCII letter or digit, joined by any non-empty run of
   * other characters, normalise to their own normalisations joined by one space.
   */
  lemma NormalizeSplit(a: string, p: string, b: string)
    requires a != [] && IsAsciiAlnum(a[|a| - 1])
    requires b != [] && IsAsciiAlnum(b[0])
    requires p != [] && forall i :: 0 <= i < |p| ==> !IsAsciiAlnum(p[i])
    ensures Normalize(a + p + b) == Normalize(a) + " " + Normalize(b)
  {
    assert a + p + b == a + (p + b);
    var ra, rp, rb := ReplaceNonWord(a), ReplaceNonWord(p), ReplaceNonWord(b);
    ReplaceAppend(a, p + b);
    ReplaceAppend(p, b);
    assert AllSpace(rp) by {
      forall j | 0 <= j < |rp| ensures IsSpace(rp[j]) {
        assert !IsAsciiAlnum(p[j]);
      }
    }
    AlnumIsNotSpace(a[|a| - 1]);
    AlnumIsNotSpace(b[0]);
    assert ra[|ra| - 1] == a[|a| - 1] && rb[0] == b[0];
    SplitPipeline(ra, rp, rb);
  }

  /** The collapse, strip and lower-casing steps of `NormalizeSplit`, after the substitution. */
  lemma SplitPipeline(ra: string, rp: string, rb: string)
    requires ra != [] && !IsSpace(ra[|ra| - 1])
    requires rp != [] && AllSpace(rp)
    requires rb != [] && !IsSpace(rb[0])
    ensures Lower(Strip(Collapse(ra + (rp + rb))))
         == Lower(Strip(Collapse(ra))) + " " + Lower(Strip(Collapse(rb)))
  {
    CollapseSplit(ra, rp, rb);
    CollapseLast(ra);
    StripLowerJoin(Collapse(ra), Collapse(rb));
  }

  /** Stripping and lower-casing two texts joined by one space treats each text on its own. */
  lemma StripLowerJoin(x: string, y: string)
    requires x != [] && !IsSpace(x[|x| - 1])
    requires y != [] && !IsSpace(y[0])
    ensures Lower(Strip(x + [' '] + y)) == Lower(Strip(x)) + " " + Lower(Strip(y))
  {
    StripSplit(x, y);
    LowerJoin(Strip(x), Strip(y));
  }

  lemma LowerJoin(u: string, v: string)
    ensures Lower(u + [' '] + v) == Lower(u) + " " + Lower(v)
  {
    LowerAppend(u + [' '], v);
    LowerAppend(u, [' ']);
    LowerFixed([' ']);
  }

  /**
   * Two one-letter words around a run without letters or digits (a tab, two
   * spaces, a hyphen) normalise to the two lower-cased letters and one space.
   */
  lemma TwoLetters(x: char, p: string, y: char)
    requires IsAsciiAlnum(x) && IsAsciiAlnum(y)
    requires p != [] && forall i :: 0 <= i < |p| ==> !IsAsciiAlnum(p[i])
    ensures Normalize([x] + p + [y]) == [LowerChar(x), ' ', LowerChar(y)]
  {
    NormalizeSplit([x], p, [y]);
    NormalizeLetter(x);
    NormalizeLetter(y);
  }

  /** A single letter or digit normalises to itself, lower-cased. */
  lemma NormalizeLetter(x: char)
    requires IsAsciiAlnum(x)
    ensures Normalize([x]) == [LowerChar(x)]
  {
    NormalizeIgnoresCase([x]);
    LowerSingle(x);
    SingleIsCanonical(LowerChar(x));
  }

  lemma LowerSingle(x: char)
    ensures Lower([x]) == [LowerChar(x)]
  {
  }

  lemma SingleIsCanonical(c: char)
    requires 'a' <= c <= 'z' || '0' <= c <= '9'
    ensures Normalize([c]) == [c]
  {
    assert Canonical([c]);
    CanonicalIsFixed([c]);
  }
}
