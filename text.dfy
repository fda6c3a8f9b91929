/** The string operations behind the title search of both pages:
    `toLowerCase` (restricted to ASCII letters) and `includes`. */
module Text {
  import Lists

  /** Lower-cases an ASCII capital letter and leaves every other character alone. */
  function LowerChar(c: char): (r: char)
    ensures 'A' <= c <= 'Z' ==> r as int == c as int + 32
    ensures !('A' <= c <= 'Z') ==> r == c
  {
    if 'A' <= c <= 'Z' then (c as int + 32) as char else c
  }

  /** `s.toLowerCase()` on the ASCII letters. */
  function Lower(s: string): string
  {
    Lists.Map(s, LowerChar)
  }

  predicate NoCapitals(s: string)
  {
    forall i :: 0 <= i < |s| ==> !('A' <= s[i] <= 'Z')
  }

  /** Lower-casing leaves no capital letter and changes nothing else but letters. */
  lemma LowerHasNoCapitals(s: string)
    ensures |Lower(s)| == |s| && NoCapitals(Lower(s))
    ensures forall i :: 0 <= i < |s| && !('A' <= s[i] <= 'Z') ==> Lower(s)[i] == s[i]
  {
  }

  /** Lower-casing twice is lower-casing once. */
  lemma LowerIdempotent(s: string)
    ensures Lower(Lower(s)) == Lower(s)
  {
    var l := Lower(s);
    assert forall i :: 0 <= i < |l| ==> Lower(l)[i] == l[i];
  }

  /** Lower-casing commutes with taking a slice. */
  lemma LowerSlice(s: string, i: int, j: int)
    requires 0 <= i <= j <= |s|
    ensures Lower(s[i..j]) == Lower(s)[i..j]
  {
    assert forall k :: 0 <= k < j - i ==> Lower(s[i..j])[k] == Lower(s)[i..j][k];
  }

  /** `t` occurs in `s` starting at index `i`. */
  predicate OccursAt(s: string, t: string, i: int)
  {
    0 <= i && i + |t| <= |s| && s[i..i + |t|] == t
  }

  /** `s.includes(t)`: scan the start positions of `s` from the left. */
  function Includes(s: string, t: string): bool
    decreases |s|
  {
    (|t| <= |s| && s[..|t|] == t) || (s != [] && Includes(s[1..], t))
  }

  /** An occurrence at index `i` is found by the scan. */
  lemma {:induction false} IncludesAt(s: string, t: string, i: int)
    requires OccursAt(s, t, i)
    ensures Includes(s, t)
    decreases i
  {
    if i > 0 {
      assert s[1..][i - 1..i - 1 + |t|] == s[i..i + |t|];
      IncludesAt(s[1..], t, i - 1);
    }
  }

  /** What the scan finds is an occurrence. */
  lemma {:induction false} IncludesWitness(s: string, t: string)
    requires Includes(s, t)
    ensures exists i :: OccursAt(s, t, i)
    decreases |s|
  {
    if |t| <= |s| && s[..|t|] == t {
      assert OccursAt(s, t, 0);
    } else {
      IncludesWitness(s[1..], t);
      var i :| OccursAt(s[1..], t, i);
      assert s[1..][i..i + |t|] == s[i + 1..i + 1 + |t|];
      assert OccursAt(s, t, i + 1);
    }
  }

  /** `Includes` holds exactly when `t` occurs in `s` at some index. */
  lemma IncludesIff(s: string, t: string)
    ensures Includes(s, t) <==> exists i :: OccursAt(s, t, i)
  {
    forall i | OccursAt(s, t, i) ensures Includes(s, t) {
      IncludesAt(s, t, i);
    }
    if Includes(s, t) {
      IncludesWitness(s, t);
    }
  }

  /** The search test of both pages: `title.toLowerCase().includes(term.toLowerCase())`. */
  predicate TitleMatches(title: string, term: string)
  {
    Includes(Lower(title), Lower(term))
  }

  /** The empty search term matches every title. */
  lemma EmptyTermMatches(title: string)
    ensures TitleMatches(title, "")
  {
    assert OccursAt(Lower(title), Lower(""), 0);
    IncludesAt(Lower(title), Lower(""), 0);
  }

  /** The test ignores the case of the term and of the title. */
  lemma TitleMatchesIgnoresCase(title: string, term: string)
    ensures TitleMatches(title, term) == TitleMatches(Lower(title), term)
    ensures TitleMatches(title, term) == TitleMatches(title, Lower(term))
  {
    LowerIdempotent(title);
    LowerIdempotent(term);
  }

  /** A term that occurs verbatim in the title, or occurs in it up to case, matches. */
  lemma OccurrenceMatches(title: string, term: string, i: int)
    requires OccursAt(title, term, i)
    ensures TitleMatches(title, term)
  {
    LowerSlice(title, i, i + |term|);
    assert OccursAt(Lower(title), Lower(term), i);
    IncludesAt(Lower(title), Lower(term), i);
  }
}
