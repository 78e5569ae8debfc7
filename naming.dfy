/**
 * File names derived from a job's prompt: the sanitiser that turns a prompt
 * into a base name, and the names given to the second, third, ... image of a
 * job (src/download.py, `_save_prompt`).
 */
module Naming {
  import opened Strings

  /** The sanitised prompt is cut to this many characters. */
  const MaxNameLength: nat := 100

  /** An image name is cut to this many characters before `-{index}` is appended. */
  const VariantStemLength: nat := 97

  /** Characters the sanitiser never leaves in a name. */
  const Forbidden: set<char> := {' ', ',', '*', '\'', ':', '<', '>', '/', '.'}

  /** Characters stripped from both ends after lower-casing. */
  const EndChars: set<char> := {'_', '*'}

  /**
   * The replacement chain over the prompt, in the order of the source: spaces
   * become `_`; `,` `*` `'` `:` go; one left-to-right pass turns `__` into `_`;
   * then `<` `>` `/` `.` go.
   */
  function Cleaned(prompt: string): string
  {
    var s1 := Replace(prompt, " ", "_");
    var s2 := Replace(s1, ",", "");
    var s3 := Replace(s2, "*", "");
    var s4 := Replace(s3, "'", "");
    var s5 := Replace(s4, ":", "");
    var s6 := Replace(s5, "__", "_");
    var s7 := Replace(s6, "<", "");
    var s8 := Replace(s7, ">", "");
    var s9 := Replace(s8, "/", "");
    Replace(s9, ".", "")
  }

  /** The base file name of a job: the cleaned prompt, lower-cased, stripped of `_`/`*` at both ends, cut to 100. */
  function Sanitize(prompt: string): string
  {
    Take(Strip(Lower(Cleaned(prompt)), EndChars), MaxNameLength)
  }

  lemma CleanedChars(prompt: string)
    ensures forall c :: c in Cleaned(prompt) ==> c !in Forbidden
  {
    var s1 := Replace(prompt, " ", "_");
    ReplaceRemovesChar(prompt, " ", "_");
    var s2 := Replace(s1, ",", "");
    ReplaceRemovesChar(s1, ",", ""); ReplaceChars(s1, ",", "");
    var s3 := Replace(s2, "*", "");
    ReplaceRemovesChar(s2, "*", ""); ReplaceChars(s2, "*", "");
    var s4 := Replace(s3, "'", "");
    ReplaceRemovesChar(s3, "'", ""); ReplaceChars(s3, "'", "");
    var s5 := Replace(s4, ":", "");
    ReplaceRemovesChar(s4, ":", ""); ReplaceChars(s4, ":", "");
    var s6 := Replace(s5, "__", "_");
    ReplaceChars(s5, "__", "_");
    var s7 := Replace(s6, "<", "");
    ReplaceRemovesChar(s6, "<", ""); ReplaceChars(s6, "<", "");
    var s8 := Replace(s7, ">", "");
    ReplaceRemovesChar(s7, ">", ""); ReplaceChars(s7, ">", "");
    var s9 := Replace(s8, "/", "");
    ReplaceRemovesChar(s8, "/", ""); ReplaceChars(s8, "/", "");
    ReplaceRemovesChar(s9, ".", ""); ReplaceChars(s9, ".", "");
  }

  /**
   * The sanitised name is at most 100 characters long, holds none of the
   * removed characters and no upper-case letter, and never starts with `_`
   * (the strip comes before the cut, so it may still end with one).
   */
  lemma SanitizeBounds(prompt: string)
    ensures |Sanitize(prompt)| <= MaxNameLength
    ensures forall c :: c in Sanitize(prompt) ==> c !in Forbidden && !IsUpper(c)
    ensures Sanitize(prompt) == [] || Sanitize(prompt)[0] != '_'
  {
    var cleaned := Cleaned(prompt);
    CleanedChars(prompt);
    LowerChars(cleaned);
    TakeChars(Strip(Lower(cleaned), EndChars), MaxNameLength);
  }

  /** Text with nothing for the sanitiser to remove, collapse, lower or strip. */
  ghost predicate IsCleanText(s: string)
  {
    && (forall c :: c in s ==> c !in Forbidden && !IsUpper(c))
    && (forall i: nat :: !OccursAt(s, "__", i))
    && (s == [] || (s[0] != '_' && s[|s| - 1] != '_'))
  }

  /** On clean text the sanitiser only cuts to 100 characters. */
  lemma SanitizeCleanText(prompt: string)
    requires IsCleanText(prompt)
    ensures Sanitize(prompt) == Take(prompt, MaxNameLength)
  {
    CleanTextIsCleaned(prompt);
    CleanTextIsLower(prompt);
    if prompt != [] {
      assert prompt[0] in prompt && prompt[|prompt| - 1] in prompt;
      StripKeeps(prompt);
    }
  }

  lemma CleanTextIsCleaned(prompt: string)
    requires IsCleanText(prompt)
    ensures Cleaned(prompt) == prompt
  {
    ReplaceAbsentChar(prompt, " ", "_");
    ReplaceAbsentChar(prompt, ",", "");
    ReplaceAbsentChar(prompt, "*", "");
    ReplaceAbsentChar(prompt, "'", "");
    ReplaceAbsentChar(prompt, ":", "");
    ReplaceAbsent(prompt, "__", "_");
    ReplaceAbsentChar(prompt, "<", "");
    ReplaceAbsentChar(prompt, ">", "");
    ReplaceAbsentChar(prompt, "/", "");
    ReplaceAbsentChar(prompt, ".", "");
  }

  lemma CleanTextIsLower(prompt: string)
    requires IsCleanText(prompt)
    ensures Lower(prompt) == prompt
  {
    forall i | 0 <= i < |prompt| ensures LowerChar(prompt[i]) == prompt[i] {
      assert prompt[i] in prompt;
    }
  }

  /** A clean name of at most 100 characters is its own sanitised form. */
  lemma SanitizeFixesCleanNames(name: string)
    requires IsCleanText(name) && |name| <= MaxNameLength
    ensures Sanitize(name) == name
  {
    SanitizeCleanText(name);
  }

  /** The single pass turns `x___y` into `x__y`: it replaces the first pair and keeps the third `_`. */
  lemma CollapseOnce(x: char, y: char)
    requires x != '_' && y != '_'
    ensures Replace([x, '_', '_', '_', y], "__", "_") == [x, '_', '_', y]
  {
    var tail := ['_', y];
    assert tail[..2] != "__" by { assert tail[1] != '_'; }
    assert Replace(tail, "__", "_") == ['_'] + Replace([y], "__", "_");
    var rest := ['_', '_', '_', y];
    assert rest[..2] == "__" && rest[2..] == tail;
    var p := [x] + rest;
    assert p[..2] != "__" by { assert p[0] != '_'; }
    assert p[1..] == rest;
  }

  /** The replacements before the collapse leave a word of letters and `_` alone. */
  lemma EarlyRemovalsKeep(x: char, y: char)
    requires 'a' <= x <= 'z' && 'a' <= y <= 'z'
    ensures var p := [x, '_', '_', '_', y];
      Replace(Replace(Replace(Replace(Replace(p, " ", "_"), ",", ""), "*", ""), "'", ""), ":", "") == p
  {
    var p := [x, '_', '_', '_', y];
    ReplaceAbsentChar(p, " ", "_");
    ReplaceAbsentChar(p, ",", "");
    ReplaceAbsentChar(p, "*", "");
    ReplaceAbsentChar(p, "'", "");
    ReplaceAbsentChar(p, ":", "");
  }

  /** So do the replacements after the collapse. */
  lemma LateRemovalsKeep(x: char, y: char)
    requires 'a' <= x <= 'z' && 'a' <= y <= 'z'
    ensures var q := [x, '_', '_', y];
      Replace(Replace(Replace(Replace(q, "<", ""), ">", ""), "/", ""), ".", "") == q
  {
    var q := [x, '_', '_', y];
    ReplaceAbsentChar(q, "<", "");
    ReplaceAbsentChar(q, ">", "");
    ReplaceAbsentChar(q, "/", "");
    ReplaceAbsentChar(q, ".", "");
  }

  lemma CleanedCollapse(x: char, y: char)
    requires 'a' <= x <= 'z' && 'a' <= y <= 'z'
    ensures Cleaned([x, '_', '_', '_', y]) == [x, '_', '_', y]
  {
    EarlyRemovalsKeep(x, y);
    CollapseOnce(x, y);
    LateRemovalsKeep(x, y);
  }

  /**
   * The `__` collapse is a single pass made before the other removals, so
   * `__` survives it: `a___b` becomes `a__b`.
   */
  lemma CollapseIsSinglePass(x: char, y: char)
    requires 'a' <= x <= 'z' && 'a' <= y <= 'z'
    ensures Sanitize([x, '_', '_', '_', y]) == [x, '_', '_', y]
  {
    var q := [x, '_', '_', y];
    CleanedCollapse(x, y);
    LowerIdentity(q);
    StripKeeps(q);
  }

  lemma StripKeeps(q: string)
    requires |q| > 0 && q[0] !in EndChars && q[|q| - 1] !in EndChars
    ensures Strip(q, EndChars) == q
  {
    assert StripLeft(q, EndChars) == q;
    assert StripRight(q, EndChars) == q;
  }

  /** Because the strip comes before the cut, a sanitised name can end with `_`. */
  lemma CutCanEndWithUnderscore()
    ensures var prompt := seq(99, _ => 'a') + "_b";
      var name := Sanitize(prompt);
      |name| == MaxNameLength && name[|name| - 1] == '_'
  {
    var prompt := seq(99, _ => 'a') + "_b";
    forall i: nat ensures !OccursAt(prompt, "__", i) {
      if i + 2 <= |prompt| {
        assert prompt[i..i + 2][0] == prompt[i] && prompt[i..i + 2][1] == prompt[i + 1];
      }
    }
    SanitizeCleanText(prompt);
  }

  /**
   * The name of image `index` of a job. Each later name is made from the
   * PREVIOUS one, cut to 97 characters, so the names accumulate: `base`,
   * `base-1`, `base-1-2`, ... until the cut takes effect.
   */
  function VariantName(base: string, index: nat): string
  {
    if index == 0 then base
    else Take(VariantName(base, index - 1), VariantStemLength) + "-" + NatToString(index)
  }

  /** Every name after the first ends with `-` and its index. */
  lemma VariantNameSuffix(base: string, index: nat)
    requires index > 0
    ensures var name, digits := VariantName(base, index), NatToString(index);
      |name| > |digits| && name[|name| - |digits| - 1..] == "-" + digits
  {
    DashSuffix(Take(VariantName(base, index - 1), VariantStemLength), NatToString(index));
  }

  lemma DashSuffix(stem: string, digits: string)
    ensures var name := stem + "-" + digits;
      |name| > |digits| && name[|name| - |digits| - 1..] == "-" + digits
  {
    var name := stem + "-" + digits;
    assert name[|stem|..] == "-" + digits;
  }

  /** Image names hold only characters of the base name, `-` and digits; in particular no `/` when the base has none. */
  lemma {:induction false} VariantNameChars(base: string, index: nat)
    ensures forall c :: c in VariantName(base, index) ==> c in base || c == '-' || IsDigit(c)
  {
    if index > 0 {
      VariantNameChars(base, index - 1);
      var previous := VariantName(base, index - 1);
      var stem := Take(previous, VariantStemLength);
      forall c | c in stem ensures c in previous {
        var i :| 0 <= i < |stem| && stem[i] == c;
        assert previous[i] == c;
      }
    }
  }

  /** Names after the first are longer than the base cut to 97, by at least two characters. */
  lemma {:induction false} VariantNameGrows(base: string, index: nat)
    requires index > 0
    ensures |VariantName(base, index)| >= |Take(base, VariantStemLength)| + 2
  {
    if index > 1 {
      VariantNameGrows(base, index - 1);
    }
  }

  /** The second, third, ... images never share a name. */
  lemma VariantNamesDistinct(base: string, i: nat, j: nat)
    requires 0 < i && 0 < j && i != j
    ensures VariantName(base, i) != VariantName(base, j)
  {
    var si, sj := NatToString(i), NatToString(j);
    if VariantName(base, i) == VariantName(base, j) {
      assert '-' !in si && '-' !in sj;
      LastPiece('-', Take(VariantName(base, i - 1), VariantStemLength), si,
                     Take(VariantName(base, j - 1), VariantStemLength), sj);
      NatToStringInjective(i, j);
    }
  }

  /** When the base name has at most 97 characters, no later image takes the first image's name. */
  lemma ShortBaseIsNeverReused(base: string, j: nat)
    requires |base| <= VariantStemLength && 0 < j
    ensures VariantName(base, j) != base
  {
    VariantNameGrows(base, j);
  }

  /**
   * A base name of 99 characters ending in `-1` is the name of the second image
   * too, so the second download overwrites the first.
   */
  lemma LongBaseCanBeReused(base: string)
    requires |base| == 99 && base[97..] == "-1"
    ensures VariantName(base, 1) == base
  {
    assert NatToString(1) == "1";
  }

  /**
   * Once the base name has at least 97 characters, every later name is the
   * base cut to 97 followed by `-{index}`: the cut throws away the previous suffix.
   */
  lemma {:induction false} LongVariantName(base: string, index: nat)
    requires |base| >= VariantStemLength && index > 0
    ensures VariantName(base, index) == base[..VariantStemLength] + "-" + NatToString(index)
  {
    if index > 1 {
      LongVariantName(base, index - 1);
      var previous := VariantName(base, index - 1);
      assert previous[..VariantStemLength] == base[..VariantStemLength];
    }
  }

  /**
   * Exactly when image `index` (> 0) takes the first image's name: the base is
   * longer than 97 characters and its tail from position 97 is `-{index}`.
   */
  lemma ReusedExactly(base: string, index: nat)
    requires index > 0
    ensures VariantName(base, index) == base
        <==> |base| > VariantStemLength && base[VariantStemLength..] == "-" + NatToString(index)
  {
    if |base| <= VariantStemLength {
      ShortBaseIsNeverReused(base, index);
    } else {
      LongVariantName(base, index);
      PrefixThen(base, VariantStemLength, "-" + NatToString(index));
    }
  }

  /** `base` is its first `n` characters followed by `x` exactly when its tail from `n` is `x`. */
  lemma PrefixThen(base: string, n: nat, x: string)
    requires n <= |base|
    ensures base[..n] + x == base <==> base[n..] == x
  {
    if base[..n] + x == base {
      assert (base[..n] + x)[n..] == x;
    }
    if base[n..] == x {
      assert base == base[..n] + base[n..];
    }
  }

  /** A prompt whose sanitised name is reused by the second image. */
  lemma ReusedNameExample()
    ensures var prompt := seq(97, _ => 'a') + "-1";
      VariantName(Sanitize(prompt), 1) == Sanitize(prompt)
  {
    var prompt := seq(97, _ => 'a') + "-1";
    forall i: nat ensures !OccursAt(prompt, "__", i) {
      if i + 2 <= |prompt| {
        assert prompt[i..i + 2][0] == prompt[i] && prompt[i..i + 2][1] == prompt[i + 1];
      }
    }
    SanitizeFixesCleanNames(prompt);
    LongBaseCanBeReused(prompt);
  }

  /** While the previous name has at most 97 characters, the next one is it plus `-{index}`. */
  lemma VariantNameExtends(base: string, index: nat)
    requires index > 0 && |VariantName(base, index - 1)| <= VariantStemLength
    ensures VariantName(base, index) == VariantName(base, index - 1) + "-" + NatToString(index)
  {
    assert Take(VariantName(base, index - 1), VariantStemLength) == VariantName(base, index - 1);
  }

  lemma SecondName(base: string)
    requires |base| <= 93
    ensures VariantName(base, 1) == base + "-1"
  {
    var one := NatToString(1);
    assert VariantName(base, 1) == base + "-" + one by { VariantNameExtends(base, 1); }
    assert "-" + one == "-1" by { DashNumerals(); }
    AppendAssoc(base, "-", one);
  }

  /**
   * For a short base the names accumulate: the third image is `base-1-2`,
   * not `base-2`.
   */
  lemma VariantNamesAccumulate(base: string)
    requires |base| <= 93
    ensures VariantName(base, 1) == base + "-1"
    ensures VariantName(base, 2) == base + "-1-2"
  {
    SecondName(base);
    VariantNameExtends(base, 2);
    DashNumerals();
    AppendAssoc(base + "-1", "-", NatToString(2));
    AppendAssoc(base, "-1", "-2");
  }

  lemma DashNumerals()
    ensures "-" + NatToString(1) == "-1" && "-" + NatToString(2) == "-2"
    ensures "-1" + "-2" == "-1-2"
  {
  }

  lemma AppendAssoc(a: string, b: string, c: string)
    ensures a + b + c == a + (b + c)
  {
  }
}
