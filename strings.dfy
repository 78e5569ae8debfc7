/** The Option type used for lookups that may find nothing. */
module Wrappers {
  datatype Option<+T> = None | Some(value: T)
}

/**
 * String operations of Python's `str` that the downloader relies on, over
 * `seq<char>`: decimal rendering of integers (`str(n)`, f-strings), slicing
 * (`s[:n]`), `replace`, `strip`, ASCII `lower` and `in`.
 */
module Strings {
  predicate IsDigit(c: char) { '0' <= c <= '9' }

  predicate IsUpper(c: char) { 'A' <= c <= 'Z' }

  function DigitChar(d: nat): (c: char)
    requires d < 10
    ensures IsDigit(c)
  {
    (48 + d) as char
  }

  function DigitValue(c: char): (d: nat)
    requires IsDigit(c)
    ensures d < 10 && DigitChar(d) == c
  {
    c as int - 48
  }

  /** Python's `str(n)` for a non-negative integer: decimal, no sign, no leading zero. */
  function NatToString(n: nat): (s: string)
    ensures |s| >= 1
    ensures forall i :: 0 <= i < |s| ==> IsDigit(s[i])
    ensures |s| > 1 ==> s[0] != '0'
  {
    if n < 10 then [DigitChar(n)] else NatToString(n / 10) + [DigitChar(n % 10)]
  }

  /** Reads a string of decimal digits back as a number: the inverse of NatToString. */
  function ParseNat(s: string): nat
    requires forall i :: 0 <= i < |s| ==> IsDigit(s[i])
  {
    if s == [] then 0 else ParseNat(s[..|s| - 1]) * 10 + DigitValue(s[|s| - 1])
  }

  lemma {:induction false} ParseNatToString(n: nat)
    ensures ParseNat(NatToString(n)) == n
  {
    var s := NatToString(n);
    if n < 10 {
      assert s[..|s| - 1] == [];
    } else {
      assert s[..|s| - 1] == NatToString(n / 10);
      ParseNatToString(n / 10);
    }
  }

  /** Distinct numbers are rendered as distinct strings. */
  lemma NatToStringInjective(m: nat, n: nat)
    requires NatToString(m) == NatToString(n)
    ensures m == n
  {
    ParseNatToString(m);
    ParseNatToString(n);
  }

  /** Python's slice `s[:n]`. */
  function Take(s: string, n: nat): (r: string)
    ensures |r| <= n && r <= s
    ensures |s| <= n ==> r == s
  {
    if |s| <= n then s else s[..n]
  }

  function LowerChar(c: char): char
  {
    if IsUpper(c) then (c as int + 32) as char else c
  }

  /** Python's `lower()`, restricted to the ASCII letters A-Z. */
  function Lower(s: string): (r: string)
    ensures |r| == |s|
    ensures forall i :: 0 <= i < |s| ==> r[i] == LowerChar(s[i])
  {
    seq(|s|, i requires 0 <= i < |s| => LowerChar(s[i]))
  }

  /** Lower-casing leaves no upper-case letter and brings in no character but lower-case letters. */
  lemma LowerChars(s: string)
    ensures forall c :: c in Lower(s) ==> !IsUpper(c) && (c in s || 'a' <= c <= 'z')
  {
    forall c | c in Lower(s) ensures !IsUpper(c) && (c in s || 'a' <= c <= 'z') {
      var i :| 0 <= i < |s| && Lower(s)[i] == c;
      assert s[i] in s;
    }
  }

  /** Lower-casing a string without upper-case letters changes nothing. */
  lemma LowerIdentity(s: string)
    requires forall c :: c in s ==> !IsUpper(c)
    ensures Lower(s) == s
  {
    forall i | 0 <= i < |s| ensures Lower(s)[i] == s[i] {
      assert s[i] in s;
    }
  }

  /** A cut keeps only characters of the string it cuts. */
  lemma TakeChars(s: string, n: nat)
    ensures forall c :: c in Take(s, n) ==> c in s
  {
    forall c | c in Take(s, n) ensures c in s {
      var i :| 0 <= i < |Take(s, n)| && Take(s, n)[i] == c;
      assert s[i] == c;
    }
  }

  /** `sub` occurs in `s` starting at index `i`. */
  predicate OccursAt(s: string, sub: string, i: nat)
  {
    i + |sub| <= |s| && s[i..i + |sub|] == sub
  }

  /** Python's `sub in s`, scanning the start positions from left to right. */
  predicate Contains(s: string, sub: string)
    decreases |s|
  {
    |sub| <= |s| && (s[..|sub|] == sub || Contains(s[1..], sub))
  }

  /** `sub in s` holds exactly when `sub` occurs at some position of `s`. */
  lemma {:induction false} ContainsOccurs(s: string, sub: string)
    ensures Contains(s, sub) <==> exists i: nat :: OccursAt(s, sub, i)
    decreases |s|
  {
    if |sub| <= |s| {
      if s[..|sub|] == sub {
        assert OccursAt(s, sub, 0);
      } else {
        ContainsOccurs(s[1..], sub);
        if Contains(s[1..], sub) {
          var i: nat :| OccursAt(s[1..], sub, i);
          assert s[i + 1..i + 1 + |sub|] == s[1..][i..i + |sub|];
          assert OccursAt(s, sub, i + 1);
        } else if i: nat :| 0 < i && OccursAt(s, sub, i) {
          assert s[1..][i - 1..i - 1 + |sub|] == s[i..i + |sub|];
          assert OccursAt(s[1..], sub, i - 1);
        }
      }
    }
  }

  /**
   * Python's `s.replace(pat, rep)` for a non-empty `pat`: a single left-to-right
   * pass that replaces non-overlapping occurrences and never rescans what it
   * has produced.
   */
  function Replace(s: string, pat: string, rep: string): string
    requires |pat| > 0
    decreases |s|
  {
    if |s| < |pat| then s
    else if s[..|pat|] == pat then rep + Replace(s[|pat|..], pat, rep)
    else [s[0]] + Replace(s[1..], pat, rep)
  }

  /** Every character of a replacement's result comes from the input or from `rep`. */
  lemma {:induction false} ReplaceChars(s: string, pat: string, rep: string)
    requires |pat| > 0
    ensures forall c :: c in Replace(s, pat, rep) ==> c in s || c in rep
  {
    if |s| < |pat| {
    } else if s[..|pat|] == pat {
      ReplaceChars(s[|pat|..], pat, rep);
      forall c | c in Replace(s, pat, rep) ensures c in s || c in rep {
        if c !in rep {
          assert c in Replace(s[|pat|..], pat, rep);
          assert c in s[|pat|..];
        }
      }
    } else {
      ReplaceChars(s[1..], pat, rep);
      forall c | c in Replace(s, pat, rep) ensures c in s || c in rep {
        if c != s[0] && c !in rep {
          assert c in Replace(s[1..], pat, rep);
          assert c in s[1..];
        }
      }
    }
  }

  /** Replacing a single character by a string without it leaves none of that character. */
  lemma {:induction false} ReplaceRemovesChar(s: string, pat: string, rep: string)
    requires |pat| == 1 && pat[0] !in rep
    ensures pat[0] !in Replace(s, pat, rep)
  {
    if |s| < |pat| {
    } else if s[..|pat|] == pat {
      ReplaceRemovesChar(s[|pat|..], pat, rep);
    } else {
      ReplaceRemovesChar(s[1..], pat, rep);
    }
  }

  /** A replacement whose pattern never occurs changes nothing. */
  lemma {:induction false} ReplaceAbsent(s: string, pat: string, rep: string)
    requires |pat| > 0
    requires forall i: nat :: !OccursAt(s, pat, i)
    ensures Replace(s, pat, rep) == s
  {
    if |s| < |pat| {
    } else {
      assert !OccursAt(s, pat, 0);
      forall i: nat ensures !OccursAt(s[1..], pat, i) {
        assert !OccursAt(s, pat, i + 1);
        if i + |pat| <= |s[1..]| {
          assert s[1..][i..i + |pat|] == s[i + 1..i + 1 + |pat|];
        }
      }
      ReplaceAbsent(s[1..], pat, rep);
    }
  }

  /** A single-character replacement is the identity on a string without that character. */
  lemma ReplaceAbsentChar(s: string, pat: string, rep: string)
    requires |pat| == 1 && pat[0] !in s
    ensures Replace(s, pat, rep) == s
  {
    forall i: nat ensures !OccursAt(s, pat, i) {
      if i + |pat| <= |s| {
        assert s[i..i + |pat|][0] == s[i];
      }
    }
    ReplaceAbsent(s, pat, rep);
  }

  /** How many characters of `chars` `s` starts with. */
  function LeadCount(s: string, chars: set<char>): (n: nat)
    ensures n <= |s|
    ensures forall k :: 0 <= k < n ==> s[k] in chars
    ensures n == |s| || s[n] !in chars
    decreases |s|
  {
    if |s| > 0 && s[0] in chars then
      var n := 1 + LeadCount(s[1..], chars);
      assert forall k :: 1 <= k < n ==> s[k] == s[1..][k - 1];
      n
    else 0
  }

  /** How many characters of `chars` `s` ends with. */
  function TrailCount(s: string, chars: set<char>): (n: nat)
    ensures n <= |s|
    ensures forall k :: |s| - n <= k < |s| ==> s[k] in chars
    ensures n == |s| || s[|s| - n - 1] !in chars
    decreases |s|
  {
    if |s| > 0 && s[|s| - 1] in chars then
      var n := 1 + TrailCount(s[..|s| - 1], chars);
      assert forall k :: |s| - n <= k < |s| - 1 ==> s[k] == s[..|s| - 1][k];
      n
    else 0
  }

  /** Python's `s.lstrip(chars)`: the longest suffix of `s` that does not start with one of `chars`. */
  function StripLeft(s: string, chars: set<char>): (r: string)
    ensures |r| <= |s| && r == s[|s| - |r|..]
    ensures r == [] || r[0] !in chars
    ensures forall i :: 0 <= i < |s| - |r| ==> s[i] in chars
  {
    s[LeadCount(s, chars)..]
  }

  /** Python's `s.rstrip(chars)`: the longest prefix of `s` that does not end with one of `chars`. */
  function StripRight(s: string, chars: set<char>): (r: string)
    ensures |r| <= |s| && r == s[..|r|]
    ensures r == [] || r[|r| - 1] !in chars
    ensures forall i :: |r| <= i < |s| ==> s[i] in chars
  {
    s[..|s| - TrailCount(s, chars)]
  }

  /**
   * Python's `s.strip(chars)`: the slice of `s` left after removing the
   * characters of `chars` at both ends, and only those.
   */
  function Strip(s: string, chars: set<char>): (r: string)
    ensures |r| <= |s|
    ensures r == [] || (r[0] !in chars && r[|r| - 1] !in chars)
    ensures forall c :: c in r ==> c in s
    ensures LeadCount(s, chars) + |r| <= |s|
    ensures r == s[LeadCount(s, chars)..LeadCount(s, chars) + |r|]
    ensures forall k :: 0 <= k < LeadCount(s, chars) ==> s[k] in chars
    ensures forall k :: LeadCount(s, chars) + |r| <= k < |s| ==> s[k] in chars
  {
    var r := StripRight(StripLeft(s, chars), chars);
    SliceOfSuffix(s, LeadCount(s, chars), r, chars);
    r
  }

  /** A prefix `r` of the suffix `s[i..]`, followed there only by characters of `chars`, is a slice of `s`. */
  lemma SliceOfSuffix(s: string, i: nat, r: string, chars: set<char>)
    requires i <= |s| && |r| <= |s| - i && r == s[i..][..|r|]
    requires forall k :: |r| <= k < |s| - i ==> s[i..][k] in chars
    ensures r == s[i..i + |r|]
    ensures forall c :: c in r ==> c in s
    ensures forall k :: i + |r| <= k < |s| ==> s[k] in chars
  {
    forall k | i + |r| <= k < |s| ensures s[k] in chars {
      assert s[k] == s[i..][k - i];
    }
    forall c | c in r ensures c in s {
      var k :| 0 <= k < |r| && r[k] == c;
      assert s[i + k] == c;
    }
  }

  /** First index of `c` in `s`, or `|s|` when it does not occur. */
  function IndexOf(s: string, c: char): (i: nat)
    ensures i <= |s|
    ensures i < |s| ==> s[i] == c
    ensures forall j :: 0 <= j < i ==> s[j] != c
  {
    if |s| == 0 then 0 else if s[0] == c then 0 else 1 + IndexOf(s[1..], c)
  }

  /** Number of characters after the last `sep` of `s` (all of `s` when it has none). */
  function LastPieceLength(s: string, sep: char): (n: nat)
    ensures n <= |s|
  {
    if |s| == 0 || s[|s| - 1] == sep then 0 else 1 + LastPieceLength(s[..|s| - 1], sep)
  }

  lemma {:induction false} LastPieceLengthOf(front: string, sep: char, last: string)
    requires sep !in last
    ensures LastPieceLength(front + [sep] + last, sep) == |last|
  {
    var s := front + [sep] + last;
    if last != [] {
      assert s[..|s| - 1] == front + [sep] + last[..|last| - 1];
      LastPieceLengthOf(front, sep, last[..|last| - 1]);
    }
  }

  /**
   * `front + [sep] + last`, with no `sep` in `last`, determines `front` and `last`:
   * a path determines its parent and its last component, a variant name its index.
   */
  lemma LastPiece(sep: char, front1: string, last1: string, front2: string, last2: string)
    requires sep !in last1 && sep !in last2
    requires front1 + [sep] + last1 == front2 + [sep] + last2
    ensures front1 == front2 && last1 == last2
  {
    var s := front1 + [sep] + last1;
    LastPieceLengthOf(front1, sep, last1);
    LastPieceLengthOf(front2, sep, last2);
    assert front1 == s[..|front1|];
    assert last1 == s[|front1| + 1..];
  }
}
