/** Character-level helpers that reproduce the Python string methods the converter relies
    on: `strip`, `lstrip`/`rstrip` with a character set, `startswith`, `endswith`, the
    substring test `in`, `split`, `join`, `isdigit` and `int`. */
module Text {

  /** Python's `str.isspace` on one character; `str.strip()` removes these. */
  predicate IsSpace(c: char) {
    || c == ' ' || '\t' <= c <= '\r' || 28 <= c as int <= 31 || c as int == 0x85
    || c as int == 0xA0 || c as int == 0x1680 || 0x2000 <= c as int <= 0x200A
    || c as int == 0x2028 || c as int == 0x2029 || c as int == 0x202F
    || c as int == 0x205F || c as int == 0x3000
  }

  /** `s.lstrip(chars)`: drop the longest prefix of characters that `drop` accepts. */
  function TrimLeft(s: string, drop: char -> bool): string {
    if |s| > 0 && drop(s[0]) then TrimLeft(s[1..], drop) else s
  }

  /** `s.rstrip(chars)`: drop the longest suffix of characters that `drop` accepts. */
  function TrimRight(s: string, drop: char -> bool): string {
    if |s| > 0 && drop(s[|s| - 1]) then TrimRight(s[..|s| - 1], drop) else s
  }

  /** TrimLeft keeps a suffix of `s` that does not start with a dropped character. */
  lemma {:induction false} TrimLeftSuffix(s: string, drop: char -> bool)
    ensures var r := TrimLeft(s, drop); |r| <= |s| && r == s[|s| - |r|..] && (r == [] || !drop(r[0]))
    decreases |s|
  {
    if |s| > 0 && drop(s[0]) {
      TrimLeftSuffix(s[1..], drop);
    }
  }

  /** TrimRight keeps a prefix of `s` that does not end with a dropped character. */
  lemma {:induction false} TrimRightPrefix(s: string, drop: char -> bool)
    ensures var r := TrimRight(s, drop); |r| <= |s| && r == s[..|r|] && (r == [] || !drop(r[|r| - 1]))
    decreases |s|
  {
    if |s| > 0 && drop(s[|s| - 1]) {
      TrimRightPrefix(s[..|s| - 1], drop);
    }
  }

  /** Everything TrimLeft drops is accepted by `drop`. */
  lemma {:induction false} TrimLeftDropped(s: string, drop: char -> bool)
    ensures forall i :: 0 <= i < |s| - |TrimLeft(s, drop)| ==> drop(s[i])
  {
    if |s| > 0 && drop(s[0]) {
      TrimLeftDropped(s[1..], drop);
      forall i | 1 <= i < |s| - |TrimLeft(s, drop)| ensures drop(s[i]) {
        assert s[i] == s[1..][i - 1];
      }
    }
  }

  /** Everything TrimRight drops is accepted by `drop`. */
  lemma {:induction false} TrimRightDropped(s: string, drop: char -> bool)
    ensures forall i :: |TrimRight(s, drop)| <= i < |s| ==> drop(s[i])
  {
    if |s| > 0 && drop(s[|s| - 1]) {
      TrimRightDropped(s[..|s| - 1], drop);
      forall i | |TrimRight(s, drop)| <= i < |s| - 1 ensures drop(s[i]) {
        assert s[i] == s[..|s| - 1][i];
      }
    }
  }

  /** `s.strip()`. */
  function Strip(s: string): string {
    TrimRight(TrimLeft(s, IsSpace), IsSpace)
  }

  /** Trimming both ends keeps the part of `s` between index `i` and index `j`, and
      everything outside it is accepted by `drop`. */
  lemma TrimShape(s: string, drop: char -> bool) returns (i: nat, j: nat)
    ensures i <= j <= |s| && TrimRight(TrimLeft(s, drop), drop) == s[i..j]
    ensures forall k :: 0 <= k < i ==> drop(s[k])
    ensures forall k :: j <= k < |s| ==> drop(s[k])
    ensures i < j ==> !drop(s[i]) && !drop(s[j - 1])
  {
    var l := TrimLeft(s, drop);
    var r := TrimRight(l, drop);
    TrimLeftSuffix(s, drop);
    TrimRightPrefix(l, drop);
    i := |s| - |l|;
    j := i + |r|;
    TrimLeftDropped(s, drop);
    TrimRightDropped(l, drop);
    assert r == s[i..j];
    forall k | j <= k < |s| ensures drop(s[k]) {
      assert s[k] == l[k - i];
    }
  }

  /** Strip removes surrounding whitespace only: what is left is the part of `s` between
      index `i` and index `j`, everything outside it is whitespace, and it neither starts
      nor ends with whitespace. */
  lemma StripShape(s: string) returns (i: nat, j: nat)
    ensures i <= j <= |s| && Strip(s) == s[i..j]
    ensures forall k :: 0 <= k < i ==> IsSpace(s[k])
    ensures forall k :: j <= k < |s| ==> IsSpace(s[k])
    ensures Strip(s) == [] || (!IsSpace(Strip(s)[0]) && !IsSpace(Strip(s)[j - i - 1]))
  {
    i, j := TrimShape(s, IsSpace);
    assert Strip(s) == [] || (Strip(s)[0] == s[i] && Strip(s)[j - i - 1] == s[j - 1]);
  }

  predicate StartsWith(s: string, prefix: string) {
    |prefix| <= |s| && s[..|prefix|] == prefix
  }

  predicate EndsWith(s: string, suffix: string) {
    |suffix| <= |s| && s[|s| - |suffix|..] == suffix
  }

  /** `p` occurs in `s` starting at index `i`. */
  predicate OccursAt(s: string, p: string, i: nat) {
    i + |p| <= |s| && s[i..i + |p|] == p
  }

  /** Python's substring test `p in s`. */
  function Contains(s: string, p: string): bool
    decreases |s|
  {
    if |p| > |s| then false
    else if s[..|p|] == p then true
    else Contains(s[1..], p)
  }

  /** The substring test finds `p` exactly when `p` occurs at some index of `s`. */
  lemma {:induction false} ContainsOccurs(s: string, p: string)
    ensures Contains(s, p) <==> exists i: nat :: OccursAt(s, p, i)
    decreases |s|
  {
    if |p| > |s| {
    } else if s[..|p|] == p {
      assert OccursAt(s, p, 0);
    } else {
      ContainsOccurs(s[1..], p);
      if Contains(s[1..], p) {
        var i: nat :| OccursAt(s[1..], p, i);
        assert s[i + 1..i + 1 + |p|] == s[1..][i..i + |p|];
        assert OccursAt(s, p, i + 1);
      } else {
        assert !OccursAt(s, p, 0);
        forall i: nat | 0 < i && OccursAt(s, p, i) ensures OccursAt(s[1..], p, i - 1) {
          assert s[1..][i - 1..i - 1 + |p|] == s[i..i + |p|];
        }
      }
    }
  }

  /** An occurrence at some index is found by the substring test. */
  lemma ContainsAt(s: string, p: string, i: nat)
    requires OccursAt(s, p, i)
    ensures Contains(s, p)
  {
    ContainsOccurs(s, p);
  }

  /** A pattern holding a character the text lacks is not found. */
  lemma NotContainsMissing(s: string, p: string, c: char)
    requires c in p && c !in s
    ensures !Contains(s, p)
  {
    ContainsOccurs(s, p);
  }

  /** Strip leaves text alone that neither starts nor ends with whitespace. */
  lemma StripUnchanged(s: string)
    requires s == [] || (!IsSpace(s[0]) && !IsSpace(s[|s| - 1]))
    ensures Strip(s) == s
  {
  }

  /** `s.split(sep)` for a one-character separator. */
  function SplitOn(s: string, sep: char): (r: seq<string>)
    ensures |r| >= 1
    ensures forall k :: 0 <= k < |r| ==> sep !in r[k]
  {
    if |s| == 0 then [""]
    else if s[0] == sep then [""] + SplitOn(s[1..], sep)
    else
      var rest := SplitOn(s[1..], sep);
      [[s[0]] + rest[0]] + rest[1..]
  }

  /** The last part of a split is the longest suffix without the separator: it is a
      suffix of `s`, the character before it is the separator, and it is all of `s`
      exactly when there is a single part. */
  lemma {:induction false} SplitOnLast(s: string, sep: char)
    ensures var r := SplitOn(s, sep); var l := r[|r| - 1];
            |l| <= |s| && l == s[|s| - |l|..]
            && (|l| < |s| ==> s[|s| - |l| - 1] == sep)
            && (|r| == 1 ==> l == s) && (|r| > 1 ==> |l| < |s|)
  {
    if |s| > 0 {
      SplitOnLast(s[1..], sep);
      var rest := SplitOn(s[1..], sep);
      var l := rest[|rest| - 1];
      if s[0] != sep && |rest| == 1 {
        assert SplitOn(s, sep) == [[s[0]] + rest[0]];
        assert [s[0]] + s[1..] == s;
      } else {
        assert SplitOn(s, sep)[|SplitOn(s, sep)| - 1] == l;
        assert s[1..][|s| - 1 - |l|..] == s[|s| - |l|..];
        if |l| < |s| - 1 {
          assert s[1..][|s| - 1 - |l| - 1] == s[|s| - |l| - 1];
        }
      }
    }
  }

  /** `sep.join(parts)`. */
  function Join(parts: seq<string>, sep: string): string {
    if |parts| == 0 then ""
    else if |parts| == 1 then parts[0]
    else parts[0] + sep + Join(parts[1..], sep)
  }

  /** Splitting and joining again with the same separator gives the text back. */
  lemma {:induction false} JoinSplitOn(s: string, sep: char)
    ensures Join(SplitOn(s, sep), [sep]) == s
  {
    if |s| == 0 {
    } else if s[0] == sep {
      JoinSplitOn(s[1..], sep);
      assert s == [sep] + s[1..];
    } else {
      var rest := SplitOn(s[1..], sep);
      JoinSplitOn(s[1..], sep);
      if |rest| == 1 {
        assert s == [s[0]] + s[1..];
      } else {
        assert Join(rest, [sep]) == rest[0] + [sep] + Join(rest[1..], [sep]);
        assert s == [s[0]] + s[1..];
      }
    }
  }

  predicate IsDigit(c: char) {
    '0' <= c <= '9'
  }

  /** `s.isdigit()` for ASCII: non-empty and made of decimal digits only. */
  predicate IsDigits(s: string) {
    |s| > 0 && forall i :: 0 <= i < |s| ==> IsDigit(s[i])
  }

  /** `int(s)` for a string of decimal digits. */
  function DigitsValue(s: string): nat
    requires forall i :: 0 <= i < |s| ==> IsDigit(s[i])
  {
    if |s| == 0 then 0 else
    assert IsDigit(s[|s| - 1]);
    DigitsValue(s[..|s| - 1]) * 10 + (s[|s| - 1] as int - '0' as int)
  }

  /** `str(n)` for a natural number. */
  function NatToString(n: nat): (r: string)
    ensures IsDigits(r)
  {
    if n < 10 then [(n + '0' as int) as char]
    else NatToString(n / 10) + [(n % 10 + '0' as int) as char]
  }

  /** `int(str(n)) == n`. */
  lemma {:induction false} DigitsValueOfNatToString(n: nat)
    ensures DigitsValue(NatToString(n)) == n
  {
    var r := NatToString(n);
    if n >= 10 {
      DigitsValueOfNatToString(n / 10);
      assert r[..|r| - 1] == NatToString(n / 10);
    }
  }
}
