/**
 * `clean_word`, copied into three of the scripts: each of the ten accented
 * vowels is replaced by the plain vowel of the same case, one `str.replace`
 * per vowel, and nothing else changes.
 */
module Accents {
  import opened Text

  /** The two parallel lists of the source: `AccentMarks[k]` is replaced by `FriendlyMarks[k]`. */
  const AccentMarks: seq<char> := ['á', 'Á', 'é', 'É', 'í', 'Í', 'ó', 'Ó', 'ú', 'Ú']
  const FriendlyMarks: seq<char> := ['a', 'A', 'e', 'E', 'i', 'I', 'o', 'O', 'u', 'U']

  /** The plain vowel for an accented one, of the same case; any other character is kept. */
  function Plain(c: char): char
  {
    match c
    case 'á' => 'a'
    case 'Á' => 'A'
    case 'é' => 'e'
    case 'É' => 'E'
    case 'í' => 'i'
    case 'Í' => 'I'
    case 'ó' => 'o'
    case 'Ó' => 'O'
    case 'ú' => 'u'
    case 'Ú' => 'U'
    case _ => c
  }

  /** What `clean_word` computes, character by character. */
  function Unaccent(s: string): (r: string)
    ensures |r| == |s|
    ensures forall i :: 0 <= i < |r| ==> r[i] !in AccentMarks
    ensures forall i :: 0 <= i < |r| ==> r[i] == s[i] || s[i] in AccentMarks
  {
    seq(|s|, i requires 0 <= i < |s| => Plain(s[i]))
  }

  /** A character after the first `k` replacements of the loop. */
  function PartlyPlain(c: char, k: nat): char
    requires k <= |AccentMarks|
  {
    if c in AccentMarks[..k] then Plain(c) else c
  }

  /** `clean_word(word)`: the ten `replace` calls in list order. */
  method CleanWord(word: string) returns (r: string)
    ensures r == Unaccent(word)
  {
    r := word;
    for k := 0 to |AccentMarks|
      invariant |r| == |word|
      invariant forall i :: 0 <= i < |r| ==> r[i] == PartlyPlain(word[i], k)
    {
      assert AccentMarks[..k + 1] == AccentMarks[..k] + [AccentMarks[k]];
      r := ReplaceChar(r, AccentMarks[k], FriendlyMarks[k]);
    }
    assert AccentMarks[..|AccentMarks|] == AccentMarks;
  }

  /** The two lists pair each accented vowel with its plain vowel. */
  lemma {:induction false} MarksPaired(k: int)
    requires 0 <= k < |AccentMarks|
    ensures |FriendlyMarks| == |AccentMarks|
    ensures Plain(AccentMarks[k]) == FriendlyMarks[k]
    ensures FriendlyMarks[k] !in AccentMarks
  {
  }

  /** Cleaning twice is cleaning once. */
  lemma {:induction false} UnaccentIdempotent(s: string)
    ensures Unaccent(Unaccent(s)) == Unaccent(s)
  {
    var once := Unaccent(s);
    forall i | 0 <= i < |s| ensures Unaccent(once)[i] == once[i] {
      assert once[i] !in AccentMarks;
    }
  }

  /** Cleaning and lower-casing commute, so `clean_word(x.lower())` equals `clean_word(x).lower()`. */
  lemma {:induction false} UnaccentLowerCommute(s: string)
    ensures Unaccent(Lower(s)) == Lower(Unaccent(s))
  {
    forall i | 0 <= i < |s| ensures Plain(LowerChar(s[i])) == LowerChar(Plain(s[i])) {
      PlainLowerChar(s[i]);
    }
  }

  lemma {:induction false} PlainLowerChar(c: char)
    ensures Plain(LowerChar(c)) == LowerChar(Plain(c))
  {
  }

  /** Cleaning maps characters one by one, so an occurrence of `pat` in `s` survives it. */
  lemma {:induction false} UnaccentKeepsOccurrence(s: string, pat: string)
    requires Contains(s, pat)
    ensures Contains(Unaccent(s), Unaccent(pat))
    decreases |s|
  {
    if StartsWith(s, pat) {
      assert Unaccent(s)[..|pat|] == Unaccent(pat);
    } else {
      UnaccentKeepsOccurrence(s[1..], pat);
      assert Unaccent(s)[1..] == Unaccent(s[1..]);
    }
  }
}
