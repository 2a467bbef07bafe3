/** Case-insensitive, unanchored substring matching: the `ILIKE '%term%'` filter of
    the search handler, for ASCII text without LIKE wildcards. */
module TextMatch {

  /** ASCII lower-casing of one character; every other character is left alone. */
  function ToLowerAscii(c: char): char {
    if 'A' <= c <= 'Z' then (c as int + 32) as char else c
  }

  function LowerAscii(s: string): (r: string)
    ensures |r| == |s|
    ensures forall i :: 0 <= i < |s| ==> r[i] == ToLowerAscii(s[i])
  {
    seq(|s|, i requires 0 <= i < |s| => ToLowerAscii(s[i]))
  }

  /** `pat` occurs in `text` starting at index `i`. */
  ghost predicate OccursAt(text: string, pat: string, i: int) {
    0 <= i && i + |pat| <= |text| && text[i..i + |pat|] == pat
  }

  /** Whether `pat` is a prefix of `text`. */
  predicate IsPrefix(pat: string, text: string) {
    |pat| <= |text| && text[..|pat|] == pat
  }

  /** Whether `pat` occurs anywhere in `text`, found by trying each start position. */
  function Contains(text: string, pat: string): (b: bool)
    ensures b ==> |pat| <= |text|
    decreases |text|
  {
    IsPrefix(pat, text) || (|text| > 0 && Contains(text[1..], pat))
  }

  /** An occurrence that `Contains` reports really exists. */
  lemma {:induction false} ContainsSound(text: string, pat: string)
    requires Contains(text, pat)
    ensures exists i :: OccursAt(text, pat, i)
    decreases |text|
  {
    if IsPrefix(pat, text) {
      assert OccursAt(text, pat, 0);
    } else {
      ContainsSound(text[1..], pat);
      var i :| OccursAt(text[1..], pat, i);
      assert text[1..][i..i + |pat|] == text[i + 1..i + 1 + |pat|];
      assert OccursAt(text, pat, i + 1);
    }
  }

  /** An occurrence at any position is found by `Contains`. */
  lemma {:induction false} ContainsComplete(text: string, pat: string, i: int)
    requires OccursAt(text, pat, i)
    ensures Contains(text, pat)
    decreases i
  {
    if i > 0 {
      assert text[1..][i - 1..i - 1 + |pat|] == text[i..i + |pat|];
      ContainsComplete(text[1..], pat, i - 1);
    }
  }

  /** `Contains` finds an occurrence exactly when one exists. */
  lemma ContainsIff(text: string, pat: string)
    ensures Contains(text, pat) <==> exists i :: OccursAt(text, pat, i)
  {
    if Contains(text, pat) {
      ContainsSound(text, pat);
    } else if i :| OccursAt(text, pat, i) {
      ContainsComplete(text, pat, i);
    }
  }

  /** `term` occurs in `text` when ASCII case is ignored. */
  predicate ContainsIgnoreCase(text: string, term: string) {
    Contains(LowerAscii(text), LowerAscii(term))
  }

  /** The window of `text` at `i` agrees with `term` character by character up to ASCII case. */
  ghost predicate MatchesAt(text: string, term: string, i: int) {
    0 <= i && i + |term| <= |text| &&
    forall k :: 0 <= k < |term| ==> ToLowerAscii(text[i + k]) == ToLowerAscii(term[k])
  }

  /** The matching rule stated character by character: `ContainsIgnoreCase` holds exactly
      when some window of `text` agrees with `term` up to ASCII case. */
  lemma ContainsIgnoreCaseIff(text: string, term: string)
    ensures ContainsIgnoreCase(text, term) <==> exists i :: MatchesAt(text, term, i)
  {
    var lt, lp := LowerAscii(text), LowerAscii(term);
    ContainsIff(lt, lp);
    forall i ensures MatchesAt(text, term, i) <==> OccursAt(lt, lp, i) {
      if 0 <= i && i + |term| <= |text| {
        if MatchesAt(text, term, i) {
          assert lt[i..i + |lp|] == lp;
        } else {
          var k :| 0 <= k < |term| && ToLowerAscii(text[i + k]) != ToLowerAscii(term[k]);
          assert lt[i..i + |lp|][k] != lp[k];
        }
      }
    }
  }

  /** Examples of the matching rule: "WORLD" matches
      "Hello world" and "WORLDLY" but not "word". */
  lemma SearchExamples()
    ensures ContainsIgnoreCase("Hello world", "WORLD")
    ensures ContainsIgnoreCase("WORLDLY", "WORLD")
    ensures !ContainsIgnoreCase("word", "WORLD")
  {
    var term := LowerAscii("WORLD");
    assert term == "world";
    var hello := LowerAscii("Hello world");
    assert hello == "hello world";
    assert OccursAt(hello, term, 6);
    ContainsIff(hello, term);
    var worldly := LowerAscii("WORLDLY");
    assert worldly == "worldly";
    assert IsPrefix(term, worldly);
  }
}
