/**
 * The keyword test of the job bot: the description of a job is lowercased and
 * each of four fixed technology keywords is looked for in it as a substring.
 */
module Text {

  /** The keywords, in the order the bot tries them. */
  const Keywords: seq<string> := ["aws", "kubernetes", "docker", "terraform"]

  /** ASCII lowercasing of one character (full Unicode case mapping is not modelled). */
  function LowerChar(c: char): (r: char)
    ensures !('A' <= r <= 'Z')
    ensures 'A' <= c <= 'Z' ==> 'a' <= r <= 'z' && r as int - 'a' as int == c as int - 'A' as int
    ensures !('A' <= c <= 'Z') ==> r == c
  {
    if 'A' <= c <= 'Z' then (c as int - 'A' as int + 'a' as int) as char else c
  }

  /** `s.lower()`, character by character. */
  function Lower(s: string): (r: string)
    ensures |r| == |s|
    ensures forall i :: 0 <= i < |s| ==> r[i] == LowerChar(s[i])
    ensures forall i :: 0 <= i < |r| ==> !('A' <= r[i] <= 'Z')
  {
    seq(|s|, i requires 0 <= i < |s| => LowerChar(s[i]))
  }

  /** Two strings that are equal once ASCII case is ignored. */
  ghost predicate EqualIgnoringCase(a: string, b: string) {
    |a| == |b| && forall j :: 0 <= j < |a| ==> LowerChar(a[j]) == LowerChar(b[j])
  }

  /** A string with no ASCII capital letter. */
  ghost predicate IsLowerCase(w: string) {
    forall j :: 0 <= j < |w| ==> !('A' <= w[j] <= 'Z')
  }

  /** `word` sits in `text` at index `i`, up to ASCII case. */
  ghost predicate MatchesAt(text: string, word: string, i: int) {
    0 <= i && i + |word| <= |text| && EqualIgnoringCase(text[i..i + |word|], word)
  }

  /**
   * A lowercase word occurs in the lowercased text at index `i` exactly when
   * the text's slice at `i` equals the word up to ASCII case.
   */
  lemma LowerOccursIgnoringCase(text: string, word: string, i: int)
    requires IsLowerCase(word)
    ensures OccursAt(Lower(text), word, i) <==> MatchesAt(text, word, i)
  {
    var low := Lower(text);
    if 0 <= i && i + |word| <= |text| {
      var slice := text[i..i + |word|];
      if low[i..i + |word|] == word {
        forall j | 0 <= j < |word| ensures LowerChar(slice[j]) == LowerChar(word[j]) {
          assert low[i..i + |word|][j] == word[j];
        }
      }
      if EqualIgnoringCase(slice, word) {
        forall j | 0 <= j < |word| ensures low[i..i + |word|][j] == word[j] {
          assert LowerChar(slice[j]) == LowerChar(word[j]);
        }
      }
    }
  }


  /** `needle in hay` on strings: is `needle` a prefix of `hay` or of one of its suffixes? */
  function Contains(hay: string, needle: string): (b: bool)
    ensures needle <= hay ==> b
    ensures b ==> |needle| <= |hay|
    decreases |hay|
  {
    needle <= hay || (|hay| > 0 && Contains(hay[1..], needle))
  }

  /** Reference definition of a substring: `needle` sits in `hay` starting at index `i`. */
  ghost predicate OccursAt(hay: string, needle: string, i: int) {
    0 <= i && i + |needle| <= |hay| && hay[i..i + |needle|] == needle
  }

  /** Contains agrees with the reference definition, in both directions. */
  lemma {:induction false} ContainsIsSubstring(hay: string, needle: string)
    ensures Contains(hay, needle) <==> exists i :: OccursAt(hay, needle, i)
    decreases |hay|
  {
    if needle <= hay {
      assert OccursAt(hay, needle, 0);
    } else if |hay| == 0 {
      assert forall i :: !OccursAt(hay, needle, i);
    } else {
      var tail := hay[1..];
      ContainsIsSubstring(tail, needle);
      forall i | OccursAt(hay, needle, i)
        ensures OccursAt(tail, needle, i - 1)
      {
        assert i == 0 ==> needle <= hay;
        OccursInTail(hay, needle, i);
      }
      forall i | OccursAt(tail, needle, i)
        ensures OccursAt(hay, needle, i + 1)
      {
        OccursInTail(hay, needle, i + 1);
      }
    }
  }

  /** An occurrence past the first character is an occurrence in the tail, one index earlier. */
  lemma OccursInTail(hay: string, needle: string, i: int)
    requires |hay| > 0 && i >= 1
    ensures OccursAt(hay, needle, i) <==> OccursAt(hay[1..], needle, i - 1)
  {
    if i + |needle| <= |hay| {
      assert hay[1..][i - 1..i - 1 + |needle|] == hay[i..i + |needle|];
    }
  }

  /** `any(w in hay for w in words)`. */
  function AnyOccurs(hay: string, words: seq<string>): (b: bool)
    ensures b ==> exists w :: w in words && Contains(hay, w)
    ensures (exists w :: w in words && Contains(hay, w)) ==> b
  {
    if |words| == 0 then false
    else
      assert words == [words[0]] + words[1..];
      Contains(hay, words[0]) || AnyOccurs(hay, words[1..])
  }

  /** The relevance filter: only the description is looked at, after lowercasing. */
  predicate IsRelevant(description: string)
    ensures IsRelevant(description) ==> |description| >= 3
  {
    AnyOccurs(Lower(description), Keywords)
  }

  /**
   * A description is relevant exactly when one of the four keywords occurs,
   * at some index, in its lowercased form.
   */
  lemma RelevantIffKeywordOccurs(description: string)
    ensures IsRelevant(description) <==>
      exists k, i :: k in Keywords && OccursAt(Lower(description), k, i)
  {
    var hay := Lower(description);
    forall k | k in Keywords ensures Contains(hay, k) <==> exists i :: OccursAt(hay, k, i) {
      ContainsIsSubstring(hay, k);
    }
  }

  /**
   * The filter in terms of the description as fetched: it is relevant exactly
   * when one of the keywords equals one of its slices up to ASCII case.
   */
  lemma RelevantIffKeywordIgnoringCase(description: string)
    ensures IsRelevant(description) <==> exists k, i :: k in Keywords && MatchesAt(description, k, i)
  {
    RelevantIffKeywordOccurs(description);
    forall k, i | k in Keywords
      ensures OccursAt(Lower(description), k, i) <==> MatchesAt(description, k, i)
    {
      assert IsLowerCase(k);
      LowerOccursIgnoringCase(description, k, i);
    }
  }

  /** Matching ignores case: "AWS" in a description counts. */
  lemma UpperCaseKeywordMatches()
    ensures IsRelevant("Must know AWS and Terraform")
  {
    var hay := Lower("Must know AWS and Terraform");
    assert hay[10..13] == "aws";
    assert OccursAt(hay, "aws", 10);
    ContainsIsSubstring(hay, "aws");
  }
}
