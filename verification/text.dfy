/** Strings as the components use them: JavaScript truthiness of a string,
    `toLowerCase` restricted to ASCII, and `includes` (substring search). */
module Text {

  /** A string field is "truthy" in JavaScript exactly when it is non-empty;
      a missing field is modelled as the empty string. */
  predicate Truthy(s: string) {
    |s| > 0
  }

  /** JavaScript `a || b` on two strings. */
  function Or(a: string, b: string): (r: string)
    ensures Truthy(a) ==> r == a
    ensures !Truthy(a) ==> r == b
  {
    if |a| > 0 then a else b
  }

  predicate IsUpper(c: char) {
    'A' <= c <= 'Z'
  }

  /** Lower-casing of one character, restricted to ASCII letters. */
  function LowerChar(c: char): (d: char)
    ensures !IsUpper(d)
    ensures !IsUpper(c) ==> d == c
    ensures IsUpper(c) ==> 'a' <= d <= 'z' && d as int - c as int == 32
  {
    if IsUpper(c) then (c as int + 32) as char else c
  }

  /** `s.toLowerCase()`, character by character. */
  function LowerStr(s: string): (t: string)
    ensures |t| == |s|
    ensures forall i :: 0 <= i < |s| ==> t[i] == LowerChar(s[i])
  {
    if s == [] then [] else [LowerChar(s[0])] + LowerStr(s[1..])
  }

  lemma LowerStrIdempotent(s: string)
    ensures LowerStr(LowerStr(s)) == LowerStr(s)
  {
  }

  lemma {:induction false} LowerStrAppend(a: string, b: string)
    ensures LowerStr(a + b) == LowerStr(a) + LowerStr(b)
  {
    var l, r := LowerStr(a + b), LowerStr(a) + LowerStr(b);
    assert |l| == |r|;
    forall i | 0 <= i < |l|
      ensures l[i] == r[i]
    {
      if i < |a| {
        assert (a + b)[i] == a[i];
      } else {
        assert (a + b)[i] == b[i - |a|];
      }
    }
  }

  predicate IsPrefix(p: string, s: string) {
    |p| <= |s| && s[..|p|] == p
  }

  /** `hay.includes(needle)`: the needle starts at some position of the hay.
      An empty needle is found in every string. */
  predicate Contains(hay: string, needle: string)
    decreases |hay|
  {
    IsPrefix(needle, hay) || (|hay| > 0 && Contains(hay[1..], needle))
  }

  /** The position-based reading of `includes`. */
  ghost predicate OccursAt(hay: string, needle: string, i: int) {
    0 <= i && i + |needle| <= |hay| && hay[i..i + |needle|] == needle
  }

  /** The recursive search agrees with the position-based definition. */
  lemma {:induction false} ContainsIffOccurs(hay: string, needle: string)
    ensures Contains(hay, needle) <==> exists i :: OccursAt(hay, needle, i)
    decreases |hay|
  {
    if IsPrefix(needle, hay) {
      assert OccursAt(hay, needle, 0);
    } else if |hay| == 0 {
      assert forall i :: !OccursAt(hay, needle, i);
    } else {
      ContainsIffOccurs(hay[1..], needle);
      if exists i :: OccursAt(hay[1..], needle, i) {
        var i :| OccursAt(hay[1..], needle, i);
        assert hay[1..][i..i + |needle|] == hay[i + 1..i + 1 + |needle|];
        assert OccursAt(hay, needle, i + 1);
      }
      if exists i :: OccursAt(hay, needle, i) {
        var i :| OccursAt(hay, needle, i);
        assert i != 0;
        assert hay[1..][i - 1..i - 1 + |needle|] == hay[i..i + |needle|];
        assert OccursAt(hay[1..], needle, i - 1);
      }
    }
  }

  /** A string that contains `a + b` also contains `a`. */
  lemma {:induction false} ContainsPrefixOfNeedle(hay: string, a: string, b: string)
    requires Contains(hay, a + b)
    ensures Contains(hay, a)
    decreases |hay|
  {
    if IsPrefix(a + b, hay) {
      assert hay[..|a|] == (a + b)[..|a|] == a;
    } else {
      ContainsPrefixOfNeedle(hay[1..], a, b);
    }
  }

  lemma {:induction false} ContainsEmpty(hay: string)
    ensures Contains(hay, "")
  {
    assert IsPrefix("", hay);
  }

  /** The search predicate the components write as
      `field && field.toLowerCase().includes(query.toLowerCase())`. */
  predicate Matches(field: string, query: string) {
    Truthy(field) && Contains(LowerStr(field), LowerStr(query))
  }

  /** With an empty query a field matches exactly when it is non-empty. */
  lemma MatchesEmptyQuery(field: string)
    ensures Matches(field, "") <==> Truthy(field)
  {
    ContainsEmpty(LowerStr(field));
  }

  /** Matching ignores the case of the query and of the field. */
  lemma MatchesIgnoresCase(field: string, query: string)
    ensures Matches(field, query) <==> Matches(field, LowerStr(query))
    ensures Matches(field, query) <==> Matches(LowerStr(field), query)
  {
    LowerStrIdempotent(query);
    LowerStrIdempotent(field);
  }

  /** Typing more characters can only narrow a match. */
  lemma MatchesNarrowing(field: string, query: string, more: string)
    requires Matches(field, query + more)
    ensures Matches(field, query)
  {
    LowerStrAppend(query, more);
    ContainsPrefixOfNeedle(LowerStr(field), LowerStr(query), LowerStr(more));
  }
}
