/** Case-insensitive substring search, as the matcher uses it to test whether an
    element's text contains the query. The search tries every start offset from the
    left, comparing characters one by one with case folded; an empty query is found
    at offset 0 of any text. Case folding covers the ASCII letters. */
module TextSearch {

  /** Folds an ASCII upper-case letter to lower case; every other character is kept. */
  function ToLower(c: char): char
  {
    if 'A' <= c <= 'Z' then (c as int + 32) as char else c
  }

  /** The text with every character folded. */
  function Lower(s: string): string
  {
    seq(|s|, i requires 0 <= i < |s| => ToLower(s[i]))
  }

  /** The query occurs in the text at the given offset, ignoring case. */
  predicate RegionMatchesIgnoreCase(text: string, offset: nat, query: string)
    requires offset + |query| <= |text|
  {
    forall j :: 0 <= j < |query| ==> ToLower(text[offset + j]) == ToLower(query[j])
  }

  /** The first offset at or after `from` where the query occurs ignoring case, or -1. */
  function IndexOfIgnoreCase(text: string, query: string, from: nat): (r: int)
    ensures r == -1 || (from <= r && r + |query| <= |text| && RegionMatchesIgnoreCase(text, r, query))
    ensures forall i: nat :: from <= i && i + |query| <= |text| && (r == -1 || i < r)
              ==> !RegionMatchesIgnoreCase(text, i, query)
    decreases |text| - from
  {
    if from + |query| > |text| then -1
    else if RegionMatchesIgnoreCase(text, from, query) then from
    else IndexOfIgnoreCase(text, query, from + 1)
  }

  /** The text contains the query, ignoring case. */
  predicate ContainsIgnoreCase(text: string, query: string)
  {
    IndexOfIgnoreCase(text, query, 0) >= 0
  }

  lemma RegionMatchesLower(text: string, offset: nat, query: string)
    requires offset + |query| <= |text|
    ensures RegionMatchesIgnoreCase(text, offset, query) <==> FoundAt(text, query, offset)
  {
    var window := Lower(text)[offset..offset + |query|];
    if RegionMatchesIgnoreCase(text, offset, query) {
      assert forall j :: 0 <= j < |query| ==> window[j] == Lower(query)[j];
    }
    if window == Lower(query) {
      forall j | 0 <= j < |query|
        ensures ToLower(text[offset + j]) == ToLower(query[j])
      {
        assert window[j] == Lower(query)[j];
      }
    }
  }

  /** The plain definition of an occurrence: after folding both strings, the query is
      the contiguous piece of the text that starts at offset i. */
  predicate FoundAt(text: string, query: string, i: nat)
  {
    i + |query| <= |text| && Lower(text)[i..i + |query|] == Lower(query)
  }

  /** The search agrees with the plain definition, in both directions. */
  lemma ContainsIgnoreCaseIff(text: string, query: string)
    ensures ContainsIgnoreCase(text, query) <==> exists i: nat :: FoundAt(text, query, i)
  {
    var r := IndexOfIgnoreCase(text, query, 0);
    if r >= 0 {
      RegionMatchesLower(text, r, query);
      assert FoundAt(text, query, r);
    }
    if i: nat :| FoundAt(text, query, i) {
      RegionMatchesLower(text, i, query);
    }
  }

  /** Whether the text contains the query depends only on the folded strings. */
  lemma ContainsIgnoresCase(text: string, query: string, text': string, query': string)
    requires Lower(text) == Lower(text') && Lower(query) == Lower(query')
    ensures ContainsIgnoreCase(text, query) == ContainsIgnoreCase(text', query')
  {
    assert |text| == |Lower(text)| == |text'|;
    assert |query| == |Lower(query)| == |query'|;
    ContainsIgnoreCaseIff(text, query);
    ContainsIgnoreCaseIff(text', query');
    forall i: nat
      ensures FoundAt(text, query, i) == FoundAt(text', query', i)
    {
    }
  }

  /** An empty query is contained in every text, the empty text included. */
  lemma EmptyQueryFound(text: string)
    ensures ContainsIgnoreCase(text, "")
  {
  }

  /** An upper-case identifier is found by a lower-case query. */
  lemma IdentifierFoundInLowerCase()
    ensures ContainsIgnoreCase("ID123", "id")
  {
  }

  /** A query longer than the text is never found. */
  lemma LongerQueryNotFound(text: string, query: string)
    requires |text| < |query|
    ensures !ContainsIgnoreCase(text, query)
  {
  }
}
