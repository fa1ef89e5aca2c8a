/**
 * The few Python `str` operations the preprocessing scripts rely on:
 * `strip()`, `split(sep)[0]`, `split(marker, 1)[0]`, `replace(a, b)`,
 * and the digit filter `re.sub(r"[^\d]", "", s)` followed by `int(...)`.
 */
module Text {

  /** Python's `str.isspace()`: the characters `str.strip()` removes. */
  predicate IsSpace(c: char)
  {
    || c == ' '
    || '\t' <= c <= '\r'
    || '\U{1C}' <= c <= '\U{1F}'
    || c == '\U{85}' || c == '\U{A0}' || c == '\U{1680}'
    || '\U{2000}' <= c <= '\U{200A}'
    || c == '\U{2028}' || c == '\U{2029}' || c == '\U{202F}' || c == '\U{205F}' || c == '\U{3000}'
  }

  predicate AllSpace(s: string)
  {
    forall i :: 0 <= i < |s| ==> IsSpace(s[i])
  }

  /** Neither end of `s` is whitespace: `s.strip() == s`. */
  predicate Trimmed(s: string)
  {
    s == [] || (!IsSpace(s[0]) && !IsSpace(s[|s| - 1]))
  }

  /** Where the run of whitespace starting at `i` ends: the first non-space at or after `i`, or `|s|`. */
  function SpacesFrom(s: string, i: nat): (j: nat)
    requires i <= |s|
    ensures i <= j <= |s|
    ensures forall k :: i <= k < j ==> IsSpace(s[k])
    ensures j < |s| ==> !IsSpace(s[j])
    decreases |s| - i
  {
    if i == |s| || !IsSpace(s[i]) then i else SpacesFrom(s, i + 1)
  }

  /** Where the run of whitespace ending at `j` starts, going no lower than `lo`. */
  function SpacesBefore(s: string, lo: nat, j: nat): (k: nat)
    requires lo <= j <= |s|
    ensures lo <= k <= j
    ensures forall m :: k <= m < j ==> IsSpace(s[m])
    ensures lo < k ==> !IsSpace(s[k - 1])
  {
    if j == lo || !IsSpace(s[j - 1]) then j else SpacesBefore(s, lo, j - 1)
  }

  /** `s.strip()`: the leading whitespace, then the trailing whitespace, removed. */
  function Strip(s: string): (r: string)
    ensures |r| <= |s|
    ensures Trimmed(r)
  {
    var a := SpacesFrom(s, 0);
    s[a..SpacesBefore(s, a, |s|)]
  }

  /** `s` is `strip(s)` framed by whitespace; `i` is where the stripped text starts. */
  lemma StripFrame(s: string) returns (i: nat)
    ensures i + |Strip(s)| <= |s| && s[i..i + |Strip(s)|] == Strip(s)
    ensures AllSpace(s[..i]) && AllSpace(s[i + |Strip(s)|..])
  {
    i := SpacesFrom(s, 0);
    var j := SpacesBefore(s, i, |s|);
    assert Strip(s) == s[i..j];
    assert forall k :: 0 <= k < |s| - j ==> s[j..][k] == s[j + k];
  }

  /** A whitespace run that ends at a non-space (or the end) is the one `SpacesFrom` finds. */
  lemma SpacesFromIs(s: string, i: nat, j: nat)
    requires i <= j <= |s|
    requires forall k :: i <= k < j ==> IsSpace(s[k])
    requires j < |s| ==> !IsSpace(s[j])
    ensures SpacesFrom(s, i) == j
  {
  }

  /** A whitespace run that starts after a non-space (or at `lo`) is the one `SpacesBefore` finds. */
  lemma SpacesBeforeIs(s: string, lo: nat, k: nat, j: nat)
    requires lo <= k <= j <= |s|
    requires forall m :: k <= m < j ==> IsSpace(s[m])
    requires lo < k ==> !IsSpace(s[k - 1])
    ensures SpacesBefore(s, lo, j) == k
  {
  }

  /** The converse of Strip's contract: whitespace framing a trimmed text is exactly what `strip()` removes. */
  lemma StripOfFramed(a: string, t: string, b: string)
    requires AllSpace(a) && AllSpace(b) && Trimmed(t)
    ensures Strip(a + t + b) == t
  {
    var s := a + t + b;
    assert forall k :: 0 <= k < |a| ==> s[k] == a[k];
    assert forall k :: |a| + |t| <= k < |s| ==> s[k] == b[k - |a| - |t|];
    if t == [] {
      SpacesFromIs(s, 0, |s|);
      SpacesBeforeIs(s, |s|, |s|, |s|);
      assert s[|s|..|s|] == t;
    } else {
      assert s[|a|] == t[0] && s[|a| + |t| - 1] == t[|t| - 1];
      SpacesFromIs(s, 0, |a|);
      SpacesBeforeIs(s, |a|, |a| + |t|, |s|);
      assert s[|a|..|a| + |t|] == t;
    }
  }

  /** Text without surrounding whitespace is left as it is. */
  lemma StripOfTrimmed(t: string)
    requires Trimmed(t)
    ensures Strip(t) == t
  {
    assert [] + t + [] == t;
    StripOfFramed([], t, []);
  }

  /** `strip()` is idempotent. */
  lemma StripIdempotent(s: string)
    ensures Strip(Strip(s)) == Strip(s)
  {
    StripOfTrimmed(Strip(s));
  }

  /** `s.split(c)[0]`: the text before the first `c`, or all of `s`. */
  function BeforeFirst(s: string, c: char): (r: string)
    ensures |r| <= |s| && r == s[..|r|]
    ensures c !in r
    ensures |r| < |s| ==> s[|r|] == c
  {
    if s == [] || s[0] == c then [] else [s[0]] + BeforeFirst(s[1..], c)
  }

  /** Cutting a concatenation: the cut falls in `s` when `s` holds a `c`. */
  lemma {:induction false} BeforeFirstConcat(s: string, u: string, c: char)
    ensures BeforeFirst(s + u, c) == if c in s then BeforeFirst(s, c) else s + BeforeFirst(u, c)
  {
    if s != [] {
      assert (s + u)[1..] == s[1..] + u;
      BeforeFirstConcat(s[1..], u, c);
    } else {
      assert s + u == u;
    }
  }

  /** Text with no `c` is left whole by the cut. */
  lemma BeforeFirstAbsent(s: string, c: char)
    requires c !in s
    ensures BeforeFirst(s, c) == s
  {
  }

  /** `m` occurs in `s` starting at index `i`. */
  predicate OccursAt(s: string, m: string, i: nat)
  {
    i + |m| <= |s| && s[i..i + |m|] == m
  }

  /** `s.split(m, 1)[0]`: the text before the first occurrence of `m`, or all of `s`. */
  function BeforeSubstring(s: string, m: string): (r: string)
    requires m != []
    ensures |r| <= |s| && r == s[..|r|]
    ensures |r| < |s| ==> OccursAt(s, m, |r|)
    ensures forall i: nat :: i < |r| ==> !OccursAt(s, m, i)
  {
    if |s| < |m| then s
    else if s[..|m|] == m then []
    else
      var rest := BeforeSubstring(s[1..], m);
      assert forall i: nat :: 1 <= i <= |rest| ==> (OccursAt(s, m, i) <==> OccursAt(s[1..], m, i - 1)) by {
        forall i: nat | 1 <= i <= |rest|
          ensures OccursAt(s, m, i) <==> OccursAt(s[1..], m, i - 1)
        {
          if i + |m| <= |s| {
            var here, there := s[i..i + |m|], s[1..][i - 1..i - 1 + |m|];
            assert forall k :: 0 <= k < |m| ==> here[k] == there[k];
          }
        }
      }
      [s[0]] + rest
  }

  /** `s.replace(a, b)` for single characters. */
  function ReplaceChar(s: string, a: char, b: char): (r: string)
    ensures |r| == |s|
    ensures forall i :: 0 <= i < |s| ==> r[i] == if s[i] == a then b else s[i]
  {
    if s == [] then [] else [if s[0] == a then b else s[0]] + ReplaceChar(s[1..], a, b)
  }

  /** The ASCII decimal digits (regex `\d` restricted to ASCII). */
  predicate IsDigit(c: char)
  {
    '0' <= c <= '9'
  }

  predicate AllDigits(s: string)
  {
    forall i :: 0 <= i < |s| ==> IsDigit(s[i])
  }

  /** Some character of `s` is a digit. */
  predicate HasDigit(s: string)
  {
    exists i :: 0 <= i < |s| && IsDigit(s[i])
  }

  /** `re.sub(r"[^\d]", "", s)`: the digits of `s`, in order. */
  function KeepDigits(s: string): (r: string)
    ensures AllDigits(r) && |r| <= |s|
  {
    if s == [] then []
    else if IsDigit(s[0]) then [s[0]] + KeepDigits(s[1..])
    else KeepDigits(s[1..])
  }

  /** The filter leaves nothing exactly when `s` has no digit. */
  lemma {:induction false} KeepDigitsEmptyIff(s: string)
    ensures KeepDigits(s) == [] <==> !HasDigit(s)
  {
    if s != [] {
      KeepDigitsEmptyIff(s[1..]);
      assert forall i :: 1 <= i < |s| ==> s[1..][i - 1] == s[i];
    }
  }

  lemma {:induction false} KeepDigitsConcat(s: string, u: string)
    ensures KeepDigits(s + u) == KeepDigits(s) + KeepDigits(u)
  {
    if s != [] {
      assert (s + u)[1..] == s[1..] + u;
      KeepDigitsConcat(s[1..], u);
    } else {
      assert s + u == u;
    }
  }

  lemma {:induction false} KeepDigitsOfDigits(s: string)
    requires AllDigits(s)
    ensures KeepDigits(s) == s
  {
    if s != [] {
      KeepDigitsOfDigits(s[1..]);
    }
  }

  function DigitValue(c: char): nat
    requires IsDigit(c)
  {
    (c as int - '0' as int) as nat
  }

  /** `int(ds)` for a string of decimal digits (leading zeros allowed). */
  function DigitsValue(ds: string): nat
    requires AllDigits(ds)
  {
    if ds == [] then 0 else 10 * DigitsValue(ds[..|ds| - 1]) + DigitValue(ds[|ds| - 1])
  }

  /** The decimal text of `n` without leading zeros, as Python's `str(n)`. */
  function DecimalText(n: nat): (r: string)
    ensures AllDigits(r) && r != []
  {
    var d := [('0' as int + n % 10) as char];
    if n < 10 then d else DecimalText(n / 10) + d
  }

  /** `int(str(n)) == n`. */
  lemma {:induction false} DecimalTextRoundTrip(n: nat)
    ensures DigitsValue(DecimalText(n)) == n
  {
    var t := DecimalText(n);
    if n >= 10 {
      DecimalTextRoundTrip(n / 10);
      assert t[..|t| - 1] == DecimalText(n / 10);
    }
  }

  /** A slice of a prefix is the same slice of the whole. */
  lemma SliceOfPrefix(s: string, p: string, a: nat, b: nat)
    requires |p| <= |s| && p == s[..|p|] && a <= b <= |p|
    ensures s[a..b] == p[a..b]
  {
  }

  /** `s` contains `t`. */
  predicate Contains(s: string, t: string)
  {
    exists i :: 0 <= i <= |s| && OccursAt(s, t, i)
  }

  /** `s.strip().replace('\n', ' ')`: a multi-line cell as one trimmed line. */
  function SingleLine(s: string): (r: string)
    ensures '\n' !in r
    ensures Trimmed(r)
    ensures |r| == |Strip(s)|
  {
    var t := Strip(s);
    var r := ReplaceChar(t, '\n', ' ');
    assert IsSpace('\n');
    assert r != [] ==> r[0] == t[0] && r[|r| - 1] == t[|t| - 1];
    r
  }

  /** Concatenation is associative (stated once, for any element type). */
  lemma ConcatAssociative<T>(a: seq<T>, b: seq<T>, c: seq<T>)
    ensures (a + b) + c == a + (b + c)
  {
  }

  /** `sep.join(parts)`. */
  function Join(sep: string, parts: seq<string>): (r: string)
  {
    if parts == [] then ""
    else if |parts| == 1 then parts[0]
    else parts[0] + sep + Join(sep, parts[1..])
  }

  /** The first part always opens the joined text, and is all of it only when it stands alone or the rest is empty text. */
  lemma JoinFirst(sep: string, first: string, rest: seq<string>)
    ensures Join(sep, [first] + rest) == first + (if rest == [] then "" else sep + Join(sep, rest))
  {
    assert ([first] + rest)[1..] == rest;
  }
}
