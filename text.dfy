/**
 * The Python `str` operations the scripts use, stated over `seq<char>`:
 * `split` on one character, `join`, the `in` substring test, `replace`,
 * `lower`, `title`, `strip` and `isdigit`.
 *
 * Case mapping and white space cover Basic Latin and the Latin-1 supplement
 * (the letters the job site's Spanish text uses); see README.md.
 */
module Text {

  // ---------------------------------------------------------------- split / join

  /** `s.split(sep)`: every separator splits, and empty pieces are kept. */
  function Split(s: string, sep: char): (parts: seq<string>)
    ensures |parts| >= 1
    ensures forall i :: 0 <= i < |parts| ==> sep !in parts[i]
    decreases |s|
  {
    if s == [] then [""]
    else if s[0] == sep then [""] + Split(s[1..], sep)
    else
      var rest := Split(s[1..], sep);
      [[s[0]] + rest[0]] + rest[1..]
  }

  /** `sep.join(parts)`. */
  function Join(parts: seq<string>, sep: char): string
  {
    if |parts| == 0 then ""
    else if |parts| == 1 then parts[0]
    else parts[0] + [sep] + Join(parts[1..], sep)
  }

  /** The piece before the first separator: `s.split(sep)[0]`, the whole string when it has none. */
  function First(s: string, sep: char): (r: string)
    ensures sep !in r
    ensures |r| <= |s| && r == s[..|r|]
    ensures |r| < |s| ==> s[|r|] == sep
  {
    FirstPiece(s, sep);
    Split(s, sep)[0]
  }

  /** The piece after the last separator: `s.split(sep)[-1]`, the whole string when it has none. */
  function Last(s: string, sep: char): (r: string)
    ensures sep !in r
    ensures |r| <= |s| && r == s[|s| - |r|..]
    ensures |r| < |s| ==> s[|s| - |r| - 1] == sep
  {
    LastPiece(s, sep);
    var parts := Split(s, sep);
    parts[|parts| - 1]
  }

  lemma {:induction false} FirstPiece(s: string, sep: char)
    ensures var r := Split(s, sep)[0]; |r| <= |s| && r == s[..|r|] && (|r| < |s| ==> s[|r|] == sep)
  {
    if sep !in s {
      SplitWithoutSeparator(s, sep);
    } else {
      var j := FirstSeparator(s, sep);
      assert s == s[..j] + [sep] + s[j + 1..];
      SplitAround(s[..j], s[j + 1..], sep);
      SplitWithoutSeparator(s[..j], sep);
    }
  }

  lemma {:induction false} LastPiece(s: string, sep: char)
    ensures var parts := Split(s, sep); var r := parts[|parts| - 1];
      |r| <= |s| && r == s[|s| - |r|..] && (|r| < |s| ==> s[|s| - |r| - 1] == sep)
  {
    if sep !in s {
      SplitWithoutSeparator(s, sep);
    } else {
      var j := LastSeparator(s, sep);
      assert s == s[..j] + [sep] + s[j + 1..];
      SplitAround(s[..j], s[j + 1..], sep);
      SplitWithoutSeparator(s[j + 1..], sep);
    }
  }

  lemma {:induction false} FirstSeparator(s: string, sep: char) returns (j: nat)
    requires sep in s
    ensures j < |s| && s[j] == sep && sep !in s[..j]
    decreases |s|
  {
    if s[0] == sep {
      j := 0;
    } else {
      var k := FirstSeparator(s[1..], sep);
      j := k + 1;
      assert s[..j] == [s[0]] + s[1..][..k];
    }
  }

  lemma {:induction false} LastSeparator(s: string, sep: char) returns (j: nat)
    requires sep in s
    ensures j < |s| && s[j] == sep && sep !in s[j + 1..]
    decreases |s|
  {
    if s[|s| - 1] == sep {
      j := |s| - 1;
    } else {
      j := LastSeparator(s[..|s| - 1], sep);
      assert s[j + 1..] == s[..|s| - 1][j + 1..] + [s[|s| - 1]];
    }
  }

  /** Splitting a string without the separator gives the string itself. */
  lemma {:induction false} SplitWithoutSeparator(s: string, sep: char)
    requires sep !in s
    ensures Split(s, sep) == [s]
    decreases |s|
  {
    if s != [] {
      SplitWithoutSeparator(s[1..], sep);
      assert [s[0]] + s[1..] == s;
    }
  }

  /** A separator between two strings splits exactly there. */
  lemma {:induction false} SplitAround(a: string, b: string, sep: char)
    ensures Split(a + [sep] + b, sep) == Split(a, sep) + Split(b, sep)
    decreases |a|
  {
    if a == [] {
      assert a + [sep] + b == [sep] + b;
    } else {
      assert (a + [sep] + b)[1..] == a[1..] + [sep] + b;
      SplitAround(a[1..], b, sep);
    }
  }

  /** `split` undoes `join` when no piece holds the separator. */
  lemma {:induction false} SplitJoin(parts: seq<string>, sep: char)
    requires |parts| >= 1
    requires forall i :: 0 <= i < |parts| ==> sep !in parts[i]
    ensures Split(Join(parts, sep), sep) == parts
    decreases |parts|
  {
    if |parts| == 1 {
      SplitWithoutSeparator(parts[0], sep);
    } else {
      SplitJoin(parts[1..], sep);
      SplitWithoutSeparator(parts[0], sep);
      SplitAround(parts[0], Join(parts[1..], sep), sep);
    }
  }

  /** `join` undoes `split`. */
  lemma {:induction false} JoinSplit(s: string, sep: char)
    ensures Join(Split(s, sep), sep) == s
    decreases |s|
  {
    if s != [] {
      JoinSplit(s[1..], sep);
      var rest := Split(s[1..], sep);
      if s[0] != sep && |rest| > 1 {
        assert Join(rest, sep) == rest[0] + [sep] + Join(rest[1..], sep);
      }
    }
  }

  // ---------------------------------------------------------------- substring

  predicate StartsWith(s: string, prefix: string)
  {
    |prefix| <= |s| && s[..|prefix|] == prefix
  }

  /** Python's `pat in s`. */
  predicate Contains(s: string, pat: string)
    decreases |s|
  {
    StartsWith(s, pat) || (s != [] && Contains(s[1..], pat))
  }

  /** A string contains every piece of itself. */
  lemma {:induction false} ContainsInfix(a: string, pat: string, b: string)
    ensures Contains(a + pat + b, pat)
    decreases |a|
  {
    if a == [] {
      assert (a + pat + b)[..|pat|] == pat;
    } else {
      assert (a + pat + b)[1..] == a[1..] + pat + b;
      ContainsInfix(a[1..], pat, b);
    }
  }

  // ---------------------------------------------------------------- replace

  /** `s.replace(c, "")`. */
  function RemoveChar(s: string, c: char): (r: string)
    ensures c !in r
    ensures |r| <= |s|
    decreases |s|
  {
    if s == [] then []
    else (if s[0] == c then [] else [s[0]]) + RemoveChar(s[1..], c)
  }

  lemma {:induction false} RemoveCharAppend(a: string, b: string, c: char)
    ensures RemoveChar(a + b, c) == RemoveChar(a, c) + RemoveChar(b, c)
    decreases |a|
  {
    if a == [] {
      assert a + b == b;
    } else {
      assert (a + b)[1..] == a[1..] + b;
      RemoveCharAppend(a[1..], b, c);
    }
  }

  lemma {:induction false} RemoveCharAbsent(s: string, c: char)
    requires c !in s
    ensures RemoveChar(s, c) == s
    decreases |s|
  {
    if s != [] {
      RemoveCharAbsent(s[1..], c);
    }
  }

  /** `s.replace(a, b)` for one-character arguments. */
  function ReplaceChar(s: string, a: char, b: char): string
  {
    seq(|s|, i requires 0 <= i < |s| => if s[i] == a then b else s[i])
  }

  /** `s.replace(pat, rep)`: occurrences are replaced left to right without overlap. */
  function ReplaceAll(s: string, pat: string, rep: string): (r: string)
    requires |pat| > 0
    ensures !Contains(s, pat) ==> r == s
    ensures |rep| <= |pat| ==> |r| <= |s|
    decreases |s|
  {
    if |s| < |pat| then s
    else if s[..|pat|] == pat then rep + ReplaceAll(s[|pat|..], pat, rep)
    else [s[0]] + ReplaceAll(s[1..], pat, rep)
  }

  // ---------------------------------------------------------------- case

  predicate IsUpper(c: char)
  {
    'A' <= c <= 'Z' || (0xC0 <= c as int <= 0xDE && c as int != 0xD7)
  }

  predicate IsLower(c: char)
  {
    'a' <= c <= 'z' || (0xE0 <= c as int <= 0xFE && c as int != 0xF7)
  }

  predicate IsCased(c: char)
  {
    IsUpper(c) || IsLower(c)
  }

  function LowerChar(c: char): char
  {
    if IsUpper(c) then (c as int + 32) as char else c
  }

  function UpperChar(c: char): char
  {
    if IsLower(c) then (c as int - 32) as char else c
  }

  /** `s.lower()`. */
  function Lower(s: string): string
  {
    seq(|s|, i requires 0 <= i < |s| => LowerChar(s[i]))
  }

  /** `s.title()`: a cased character is upper-cased after an uncased one and lower-cased after a cased one. */
  function TitleFrom(s: string, previousCased: bool): (r: string)
    ensures |r| == |s|
    ensures forall i :: 0 <= i < |s| ==> r[i] == LowerChar(s[i]) || r[i] == UpperChar(s[i])
    decreases |s|
  {
    if s == [] then []
    else [if previousCased then LowerChar(s[0]) else UpperChar(s[0])] + TitleFrom(s[1..], IsCased(s[0]))
  }

  /**
   * Title case after a character whose casedness is `previousCased`: a cased
   * character is upper case exactly when the character before it is uncased.
   */
  predicate TitledAfter(t: string, previousCased: bool)
  {
    forall i :: 0 <= i < |t| && IsCased(t[i]) ==> IsUpper(t[i]) == !CasedBefore(t, i, previousCased)
  }

  /** Whether the character before position `i` is cased; `previousCased` stands for the one before the string. */
  predicate CasedBefore(t: string, i: nat, previousCased: bool)
    requires i <= |t|
  {
    if i == 0 then previousCased else IsCased(t[i - 1])
  }

  /** Every word starts with an upper-case letter and continues in lower case. */
  predicate TitleCased(t: string)
  {
    TitledAfter(t, false)
  }

  /** `s.title()`: the title-cased string that equals `s` up to case. */
  function Title(s: string): (r: string)
    ensures |r| == |s|
    ensures forall i :: 0 <= i < |s| ==> r[i] == LowerChar(s[i]) || r[i] == UpperChar(s[i])
    ensures TitleCased(r)
    ensures Lower(r) == Lower(s)
  {
    TitleFromCased(s, false);
    TitleFromLetters(s, false);
    TitleFrom(s, false)
  }

  lemma {:induction false} TitleFromCased(s: string, previousCased: bool)
    ensures TitledAfter(TitleFrom(s, previousCased), previousCased)
    decreases |s|
  {
    if s != [] {
      var r := TitleFrom(s, previousCased);
      var rest := TitleFrom(s[1..], IsCased(s[0]));
      TitleFromCased(s[1..], IsCased(s[0]));
      assert r[1..] == rest;
      assert IsCased(r[0]) == IsCased(s[0]);
      forall i | 0 <= i < |r| && IsCased(r[i])
        ensures IsUpper(r[i]) == !CasedBefore(r, i, previousCased)
      {
        if i > 0 {
          assert r[i] == rest[i - 1];
          if i > 1 {
            assert r[i - 1] == rest[i - 2];
          }
        }
      }
    }
  }

  lemma {:induction false} TitleFromLetters(s: string, previousCased: bool)
    ensures Lower(TitleFrom(s, previousCased)) == Lower(s)
  {
    var t := TitleFrom(s, previousCased);
    forall i | 0 <= i < |s| ensures LowerChar(t[i]) == LowerChar(s[i]) {
      assert t[i] == LowerChar(s[i]) || t[i] == UpperChar(s[i]);
    }
  }

  lemma {:induction false} TitledAt(t: string, previousCased: bool, j: nat)
    requires TitledAfter(t, previousCased) && j < |t| && IsCased(t[j])
    ensures IsUpper(t[j]) == !CasedBefore(t, j, previousCased)
  {
  }

  /** A slice of a title-cased string that starts at a word boundary is title-cased. */
  lemma {:induction false} TitledSlice(t: string, a: nat, b: nat)
    requires TitleCased(t) && a <= b <= |t|
    requires a == 0 || !IsCased(t[a - 1])
    ensures TitleCased(t[a..b])
  {
    var u := t[a..b];
    forall i | 0 <= i < |u| && IsCased(u[i])
      ensures IsUpper(u[i]) == !CasedBefore(u, i, false)
    {
      assert u[i] == t[a + i];
      TitledAt(t, false, a + i);
      if i > 0 {
        assert u[i - 1] == t[a + i - 1];
      }
    }
    assert TitledAfter(u, false);
  }

  /** `strip` keeps title case: it only removes uncased characters from the start. */
  lemma {:induction false} StripTitled(t: string)
    requires TitleCased(t)
    ensures TitleCased(Strip(t))
  {
    var l := StripLeft(t);
    StripLeftSuffix(t);
    StripRightPrefix(l);
    var a := |t| - |l|;
    var k := |StripRight(l)|;
    assert Strip(t) == t[a..a + k];
    TitledSlice(t, a, a + k);
  }

  /** Lower-casing and `strip` commute: white space is uncased. */
  lemma {:induction false} StripLower(s: string)
    ensures Strip(Lower(s)) == Lower(Strip(s))
  {
    StripLeftLower(s);
    StripRightLower(StripLeft(s));
  }

  lemma {:induction false} StripLeftLower(s: string)
    ensures StripLeft(Lower(s)) == Lower(StripLeft(s))
    decreases |s|
  {
    if s != [] {
      assert Lower(s)[1..] == Lower(s[1..]);
      StripLeftLower(s[1..]);
    }
  }

  lemma {:induction false} StripRightLower(s: string)
    ensures StripRight(Lower(s)) == Lower(StripRight(s))
    decreases |s|
  {
    if s != [] {
      assert Lower(s)[..|s| - 1] == Lower(s[..|s| - 1]);
      StripRightLower(s[..|s| - 1]);
    }
  }

  // ---------------------------------------------------------------- white space and digits

  /** `c.isspace()` on Basic Latin and Latin-1. */
  predicate IsSpace(c: char)
  {
    9 <= c as int <= 13 || 0x1C <= c as int <= 0x20 || c as int == 0x85 || c as int == 0xA0
  }

  function StripLeft(s: string): string
    decreases |s|
  {
    if s != [] && IsSpace(s[0]) then StripLeft(s[1..]) else s
  }

  function StripRight(s: string): string
    decreases |s|
  {
    if s != [] && IsSpace(s[|s| - 1]) then StripRight(s[..|s| - 1]) else s
  }

  /** `s.strip()`. */
  function Strip(s: string): string
  {
    StripRight(StripLeft(s))
  }

  /** A string that begins and ends with a non-space character is its own `strip()`. */
  lemma {:induction false} StripNoOp(s: string)
    requires s != [] && !IsSpace(s[0]) && !IsSpace(s[|s| - 1])
    ensures Strip(s) == s
  {
  }

  /** Lower-casing maps characters one by one, so an occurrence of `pat` in `s` survives it. */
  lemma {:induction false} LowerKeepsOccurrence(s: string, pat: string)
    requires Contains(s, pat)
    ensures Contains(Lower(s), Lower(pat))
    decreases |s|
  {
    if StartsWith(s, pat) {
      assert Lower(s)[..|pat|] == Lower(pat);
    } else {
      LowerKeepsOccurrence(s[1..], pat);
      assert Lower(s)[1..] == Lower(s[1..]);
    }
  }

  /** Lower-casing twice is lower-casing once. */
  lemma {:induction false} LowerIdempotent(s: string)
    ensures Lower(Lower(s)) == Lower(s)
  {
    forall i | 0 <= i < |s| ensures LowerChar(LowerChar(s[i])) == LowerChar(s[i]) {
    }
  }

  /** A character outside a string is outside its title-cased form, unless case mapping can produce it. */
  lemma {:induction false} TitleKeepsChar(s: string, c: char)
    requires c !in s && !IsCased(c)
    ensures c !in Title(s)
  {
    var t := Title(s);
    forall i | 0 <= i < |t| ensures t[i] != c {
      assert t[i] == LowerChar(s[i]) || t[i] == UpperChar(s[i]);
    }
  }

  /** `strip` removes white space from both ends only. */
  lemma {:induction false} StripTrims(s: string)
    ensures Strip(s) == [] || (!IsSpace(Strip(s)[0]) && !IsSpace(Strip(s)[|Strip(s)| - 1]))
  {
    var l := StripLeft(s);
    StripLeftSuffix(s);
    StripRightPrefix(l);
  }

  /** `strip` only removes characters. */
  lemma {:induction false} StripKeepsOut(s: string, c: char)
    requires c !in s
    ensures c !in Strip(s)
  {
    StripLeftSuffix(s);
    StripRightPrefix(StripLeft(s));
    var l := StripLeft(s);
    assert c !in l by {
      assert l == s[|s| - |l|..];
    }
    assert StripRight(l) == l[..|StripRight(l)|];
  }

  lemma {:induction false} StripLeftSuffix(s: string)
    ensures |StripLeft(s)| <= |s| && StripLeft(s) == s[|s| - |StripLeft(s)|..]
    ensures StripLeft(s) == [] || !IsSpace(StripLeft(s)[0])
    ensures |StripLeft(s)| < |s| ==> IsSpace(s[|s| - |StripLeft(s)| - 1])
    decreases |s|
  {
    if s != [] && IsSpace(s[0]) {
      StripLeftSuffix(s[1..]);
    }
  }

  lemma {:induction false} StripRightPrefix(s: string)
    ensures |StripRight(s)| <= |s| && StripRight(s) == s[..|StripRight(s)|]
    ensures StripRight(s) == [] || !IsSpace(StripRight(s)[|StripRight(s)| - 1])
    ensures StripRight(s) != [] ==> StripRight(s)[0] == s[0]
    decreases |s|
  {
    if s != [] && IsSpace(s[|s| - 1]) {
      StripRightPrefix(s[..|s| - 1]);
    }
  }

  predicate IsAsciiDigit(c: char)
  {
    '0' <= c <= '9'
  }

  predicate AllDigits(s: string)
  {
    forall i :: 0 <= i < |s| ==> IsAsciiDigit(s[i])
  }

  /** `s.isdigit()` on Basic Latin and Latin-1: the ASCII digits and the superscripts one, two and three. */
  predicate IsDigitWord(s: string)
  {
    |s| > 0 && forall i :: 0 <= i < |s| ==> IsAsciiDigit(s[i]) || s[i] as int in {0xB2, 0xB3, 0xB9}
  }

  /** Concatenation regrouped; stated once so that proofs about long texts need not rediscover it. */
  lemma {:induction false} AppendAssoc(a: string, b: string, c: string)
    ensures a + b + c == a + (b + c)
  {
  }
}
