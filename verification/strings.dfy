/**
  The character-level string operations that the listing normalisation is built
  from, each paired with an independent reference definition of what it computes.
 */
module Strings {

  /** Python's `s.replace(from, to)` for a one-character `from`: every occurrence
      of `from` becomes `to`, every other character is kept in order. */
  function Replace(s: string, from: char, to: string): (r: string)
    ensures from !in to ==> from !in r
    ensures forall c :: c in r ==> c in s || c in to
    decreases |s|
  {
    if s == [] then []
    else (if s[0] == from then to else [s[0]]) + Replace(s[1..], from, to)
  }

  /** Reference definition: the characters of `s` outside `drop`, in their original order. */
  function Without(s: string, drop: set<char>): (r: string)
    ensures |r| <= |s|
    ensures forall c :: c in r ==> c in s && c !in drop
    decreases |s|
  {
    if s == [] then []
    else (if s[0] in drop then [] else [s[0]]) + Without(s[1..], drop)
  }

  /** The number of characters of `s` that lie in `chars`. */
  function CountIn(s: string, chars: set<char>): nat
    decreases |s|
  {
    if s == [] then 0 else (if s[0] in chars then 1 else 0) + CountIn(s[1..], chars)
  }

  /** Reference definition: `s` with `from` replaced by `to` position by position. */
  ghost function Substitute(s: string, from: char, to: char): string
  {
    seq(|s|, k requires 0 <= k < |s| => if s[k] == from then to else s[k])
  }

  /** Replacing a character by nothing is dropping it. */
  lemma {:induction false} ReplaceByNothing(s: string, c: char)
    ensures Replace(s, c, "") == Without(s, {c})
    decreases |s|
  {
    if s != [] {
      ReplaceByNothing(s[1..], c);
    }
  }

  /** Replacing a character by one character keeps every position. */
  lemma {:induction false} ReplaceOneForOne(s: string, from: char, to: char)
    ensures Replace(s, from, [to]) == Substitute(s, from, to)
    decreases |s|
  {
    if s != [] {
      ReplaceOneForOne(s[1..], from, to);
      var head: string := if s[0] == from then [to] else [s[0]];
      assert Substitute(s, from, to) == head + Substitute(s[1..], from, to);
    }
  }

  /** Dropping `a` and then `b` is dropping `a + b` in one pass. */
  lemma {:induction false} WithoutTwice(s: string, a: set<char>, b: set<char>)
    ensures Without(Without(s, a), b) == Without(s, a + b)
    decreases |s|
  {
    if s != [] {
      var w := Without(s[1..], a);
      WithoutTwice(s[1..], a, b);
      assert Without(w, b) == Without(s[1..], a + b);
      if s[0] in a {
        assert Without(s, a) == w;
        assert Without(s, a + b) == Without(s[1..], a + b);
      } else {
        var x := [s[0]] + w;
        assert Without(s, a) == x;
        assert x[0] == s[0] && x[1..] == w;
        assert Without(x, b) == (if s[0] in b then [] else [s[0]]) + Without(w, b);
        assert Without(s, a + b) == (if s[0] in b then [] else [s[0]]) + Without(s[1..], a + b);
      }
    }
  }

  /** Dropping characters that do not occur changes nothing. */
  lemma {:induction false} WithoutAbsent(s: string, drop: set<char>)
    requires forall c :: c in s ==> c !in drop
    ensures Without(s, drop) == s
    decreases |s|
  {
    if s != [] {
      assert s[0] in s;
      WithoutAbsent(s[1..], drop);
      assert [s[0]] + s[1..] == s;
    }
  }

  /** Replacing a character that does not occur changes nothing. */
  lemma {:induction false} ReplaceAbsent(s: string, from: char, to: string)
    requires from !in s
    ensures Replace(s, from, to) == s
    decreases |s|
  {
    if s != [] {
      assert s[0] in s;
      ReplaceAbsent(s[1..], from, to);
      assert [s[0]] + s[1..] == s;
    }
  }

  /** Dropping characters shortens the string by exactly their number. */
  lemma {:induction false} WithoutLength(s: string, drop: set<char>)
    ensures |Without(s, drop)| == |s| - CountIn(s, drop)
    decreases |s|
  {
    if s != [] {
      WithoutLength(s[1..], drop);
    }
  }

  /** Python's `keyword in text`: a case-sensitive substring test. */
  predicate Contains(text: string, keyword: string)
    decreases |text|
  {
    keyword <= text || (text != [] && Contains(text[1..], keyword))
  }

  /** `keyword` sits in `text` starting at index `i`. */
  ghost predicate OccursAt(text: string, keyword: string, i: int)
  {
    0 <= i && i + |keyword| <= |text| && text[i..i + |keyword|] == keyword
  }

  /** Reference definition of substring containment. */
  ghost predicate Occurs(text: string, keyword: string)
  {
    exists i :: OccursAt(text, keyword, i)
  }

  lemma {:induction false} ContainsFindsOccurrence(text: string, keyword: string)
    requires Contains(text, keyword)
    ensures Occurs(text, keyword)
    decreases |text|
  {
    if keyword <= text {
      assert OccursAt(text, keyword, 0);
    } else {
      ContainsFindsOccurrence(text[1..], keyword);
      var i :| OccursAt(text[1..], keyword, i);
      assert text[1..][i..i + |keyword|] == text[i + 1..i + 1 + |keyword|];
      assert OccursAt(text, keyword, i + 1);
    }
  }

  lemma {:induction false} OccurrenceIsContained(text: string, keyword: string, i: int)
    requires OccursAt(text, keyword, i)
    ensures Contains(text, keyword)
    decreases i
  {
    if i == 0 {
      assert text[..|keyword|] == keyword;
    } else {
      assert text[1..][i - 1..i - 1 + |keyword|] == text[i..i + |keyword|];
      assert OccursAt(text[1..], keyword, i - 1);
      OccurrenceIsContained(text[1..], keyword, i - 1);
    }
  }

  /** The substring test decides exactly the reference definition. */
  lemma ContainsIffOccurs(text: string, keyword: string)
    ensures Contains(text, keyword) <==> Occurs(text, keyword)
  {
    if Contains(text, keyword) {
      ContainsFindsOccurrence(text, keyword);
    }
    if Occurs(text, keyword) {
      var i :| OccursAt(text, keyword, i);
      OccurrenceIsContained(text, keyword, i);
    }
  }
}
