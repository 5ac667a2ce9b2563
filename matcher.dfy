/** The matcher of the text analyzer: it walks a recognized document in block -> line
    -> element order, keeps each element whose text contains the search text (ignoring
    case) and whose corner list has exactly four points, maps those four corners into
    preview coordinates, and stops the whole walk once MaxMatches quads are collected. */
module Matcher {
  import opened RecognizedText
  import opened TextSearch

  /** Maximum number of matches collected before the walk stops. */
  const MaxMatches: nat := 5

  /** An element is kept when its text contains the query ignoring case and it has
      corner points, exactly four of them. */
  predicate Qualifies(e: Element, query: string)
  {
    ContainsIgnoreCase(e.text, query) && e.cornerPoints.Some? && |e.cornerPoints.value| == 4
  }

  /** The quad of a kept element: its four corners, in the engine's order, each mapped
      into preview coordinates. */
  function Corners(e: Element, toPreview: Point -> PointF): (c: TextCorners)
    requires e.cornerPoints.Some? && |e.cornerPoints.value| == 4
    ensures |c.points| == 4
    ensures forall i :: 0 <= i < 4 ==> c.points[i] == toPreview(e.cornerPoints.value[i])
  {
    var p := e.cornerPoints.value;
    TextCorners([toPreview(p[0]), toPreview(p[1]), toPreview(p[2]), toPreview(p[3])])
  }

  /** The quads of all kept elements of es, uncapped, in the order of es. */
  function Matches(es: seq<Element>, query: string, toPreview: Point -> PointF): (r: seq<TextCorners>)
    ensures |r| <= |es|
  {
    if es == [] then []
    else
      var rest := Matches(es[..|es| - 1], query, toPreview);
      var e := es[|es| - 1];
      if Qualifies(e, query) then rest + [Corners(e, toPreview)] else rest
  }

  /** Every uncapped match is a quad: it has exactly four points. */
  lemma {:induction false} MatchesAreQuads(es: seq<Element>, query: string, toPreview: Point -> PointF)
    ensures forall k :: 0 <= k < |Matches(es, query, toPreview)| ==> |Matches(es, query, toPreview)[k].points| == 4
  {
    if es != [] {
      MatchesAreQuads(es[..|es| - 1], query, toPreview);
    }
  }

  /** An empty search text keeps every element that has exactly four corners. */
  lemma EmptyQueryKeepsEveryQuad(e: Element)
    requires e.cornerPoints.Some? && |e.cornerPoints.value| == 4
    ensures Qualifies(e, "")
  {
    EmptyQueryFound(e.text);
  }

  /** Keeps the first n entries of s, or all of s when it is shorter. */
  function TakeFirst<T>(s: seq<T>, n: nat): (r: seq<T>)
    ensures |r| == if |s| <= n then |s| else n
    ensures r <= s
  {
    if |s| <= n then s else s[..n]
  }

  /** What the matcher produces for a document: the first MaxMatches quads of kept
      elements, in traversal order. */
  function FirstMatches(text: Text, query: string, toPreview: Point -> PointF): seq<TextCorners>
  {
    TakeFirst(Matches(Elements(text), query, toPreview), MaxMatches)
  }

  predicate StrictlyIncreasing(idx: seq<nat>)
  {
    forall j, k :: 0 <= j < k < |idx| ==> idx[j] < idx[k]
  }

  /** The positions in es of the elements that qualify, listed in increasing order:
      an independent description of which elements the matcher keeps. */
  ghost function MatchIndices(es: seq<Element>, query: string): (idx: seq<nat>)
    ensures StrictlyIncreasing(idx)
    ensures forall k :: 0 <= k < |idx| ==> idx[k] < |es| && Qualifies(es[idx[k]], query)
  {
    if es == [] then []
    else
      var rest := MatchIndices(es[..|es| - 1], query);
      if Qualifies(es[|es| - 1], query) then rest + [|es| - 1] else rest
  }

  /** Every qualifying position is listed. */
  lemma {:induction false} MatchIndicesComplete(es: seq<Element>, query: string, i: nat)
    requires i < |es| && Qualifies(es[i], query)
    ensures i in MatchIndices(es, query)
  {
    var init := es[..|es| - 1];
    if i < |init| {
      assert init[i] == es[i];
      MatchIndicesComplete(init, query, i);
    }
  }

  /** There are as many uncapped matches as qualifying positions. */
  lemma {:induction false} MatchesCount(es: seq<Element>, query: string, toPreview: Point -> PointF)
    ensures |Matches(es, query, toPreview)| == |MatchIndices(es, query)|
  {
    if es != [] {
      MatchesCount(es[..|es| - 1], query, toPreview);
    }
  }

  /** Dropping the last element drops its position exactly when it qualifies. */
  lemma MatchIndicesLast(es: seq<Element>, query: string)
    requires es != []
    ensures MatchIndices(es, query)
              == MatchIndices(es[..|es| - 1], query) + (if Qualifies(es[|es| - 1], query) then [|es| - 1] else [])
  {
  }

  /** Dropping the last element drops its quad exactly when it qualifies. */
  lemma MatchesLast(es: seq<Element>, query: string, toPreview: Point -> PointF)
    requires es != []
    ensures Matches(es, query, toPreview)
              == Matches(es[..|es| - 1], query, toPreview)
                 + (if Qualifies(es[|es| - 1], query) then [Corners(es[|es| - 1], toPreview)] else [])
  {
  }

  /** The k-th uncapped match is the quad of the element at the k-th qualifying position. */
  lemma {:induction false} MatchAt(es: seq<Element>, query: string, toPreview: Point -> PointF, k: nat)
    requires k < |MatchIndices(es, query)|
    ensures |Matches(es, query, toPreview)| == |MatchIndices(es, query)|
    ensures Matches(es, query, toPreview)[k] == Corners(es[MatchIndices(es, query)[k]], toPreview)
  {
    MatchesCount(es, query, toPreview);
    var init, last := es[..|es| - 1], es[|es| - 1];
    var idx := MatchIndices(init, query);
    MatchesCount(init, query, toPreview);
    MatchIndicesLast(es, query);
    MatchesLast(es, query, toPreview);
    if k < |idx| {
      MatchAt(init, query, toPreview, k);
      assert Matches(es, query, toPreview)[k] == Matches(init, query, toPreview)[k];
      assert MatchIndices(es, query)[k] == idx[k];
      assert es[idx[k]] == init[idx[k]];
    } else {
      assert Qualifies(last, query) && k == |idx|;
      assert MatchIndices(es, query)[k] == |es| - 1;
      assert Matches(es, query, toPreview)[k] == Corners(last, toPreview);
    }
  }

  /** The uncapped matches are exactly the quads of the qualifying positions, in
      increasing position order: nothing reordered, merged or dropped. */
  lemma {:induction false} MatchesAreQualifyingElements(es: seq<Element>, query: string, toPreview: Point -> PointF)
    ensures |Matches(es, query, toPreview)| == |MatchIndices(es, query)|
    ensures forall k :: 0 <= k < |MatchIndices(es, query)| ==>
              Matches(es, query, toPreview)[k] == Corners(es[MatchIndices(es, query)[k]], toPreview)
  {
    MatchesCount(es, query, toPreview);
    forall k | 0 <= k < |MatchIndices(es, query)|
      ensures Matches(es, query, toPreview)[k] == Corners(es[MatchIndices(es, query)[k]], toPreview)
    {
      MatchAt(es, query, toPreview, k);
    }
  }

  /** Matching a concatenation matches each part in turn. */
  lemma {:induction false} MatchesAppend(a: seq<Element>, b: seq<Element>, query: string, toPreview: Point -> PointF)
    ensures Matches(a + b, query, toPreview) == Matches(a, query, toPreview) + Matches(b, query, toPreview)
    decreases |b|
  {
    if b == [] {
      assert a + b == a;
    } else {
      var init, last := b[..|b| - 1], b[|b| - 1];
      var added := if Qualifies(last, query) then [Corners(last, toPreview)] else [];
      calc {
        Matches(a + b, query, toPreview);
        { assert a + b == (a + init) + [last]; }
        Matches((a + init) + [last], query, toPreview);
        { MatchesNext(a + init, last, query, toPreview); }
        Matches(a + init, query, toPreview) + added;
        { MatchesAppend(a, init, query, toPreview); }
        (Matches(a, query, toPreview) + Matches(init, query, toPreview)) + added;
        { AppendAssoc(Matches(a, query, toPreview), Matches(init, query, toPreview), added); }
        Matches(a, query, toPreview) + (Matches(init, query, toPreview) + added);
        { assert b == init + [last]; MatchesNext(init, last, query, toPreview); }
        Matches(a, query, toPreview) + Matches(b, query, toPreview);
      }
    }
  }

  /** Once a prefix of the traversal has produced MaxMatches quads, the capped result
      of the whole traversal is that prefix's result: later elements are never seen. */
  lemma CapReachedOnPrefix(visited: seq<Element>, all: seq<Element>, query: string, toPreview: Point -> PointF)
    requires visited <= all
    requires |Matches(visited, query, toPreview)| == MaxMatches
    ensures TakeFirst(Matches(all, query, toPreview), MaxMatches) == Matches(visited, query, toPreview)
  {
    assert all == visited + all[|visited|..];
    MatchesAppend(visited, all[|visited|..], query, toPreview);
  }

  /** The matcher's result for a document holds at most MaxMatches quads of four points
      each, and they are the quads of the first min(MaxMatches, k) qualifying elements
      of the traversal, where k is how many elements qualify. */
  lemma FirstMatchesAreFirstQualifying(text: Text, query: string, toPreview: Point -> PointF)
    ensures var r := FirstMatches(text, query, toPreview);
            var idx := MatchIndices(Elements(text), query);
            |r| <= MaxMatches
            && |r| == (if |idx| < MaxMatches then |idx| else MaxMatches)
            && (forall k :: 0 <= k < |r| ==> |r[k].points| == 4)
            && (forall k :: 0 <= k < |r| ==> r[k] == Corners(Elements(text)[idx[k]], toPreview))
  {
    MatchesAreQualifyingElements(Elements(text), query, toPreview);
    MatchesAreQuads(Elements(text), query, toPreview);
  }

  /** Visiting one more element extends the matches by that element's quad exactly
      when it qualifies. */
  lemma MatchesNext(es: seq<Element>, e: Element, query: string, toPreview: Point -> PointF)
    ensures Matches(es + [e], query, toPreview)
              == Matches(es, query, toPreview) + (if Qualifies(e, query) then [Corners(e, toPreview)] else [])
  {
    assert (es + [e])[..|es + [e]| - 1] == es;
  }

  /** Extending a slice of s by one entry extends any concatenation ending in it. */
  lemma AppendNextOfSlice<T>(prefix: seq<T>, s: seq<T>, n: nat)
    requires n < |s|
    ensures prefix + s[..n + 1] == (prefix + s[..n]) + [s[n]]
  {
    assert s[..n + 1] == s[..n] + [s[n]];
  }

  /** Concatenation regrouped; called where stating it inline would cost the enclosing
      proof more than its resource limit. */
  lemma AppendAssoc<T>(a: seq<T>, b: seq<T>, c: seq<T>)
    ensures (a + b) + c == a + (b + c)
  {
  }

  /** The matcher's loop: three nested walks over blocks, lines and elements, leaving
      all three at once when the cap is reached. */
  method CollectMatches(text: Text, query: string, toPreview: Point -> PointF) returns (detected: seq<TextCorners>)
    ensures detected == FirstMatches(text, query, toPreview)
  {
    var blocks := text.textBlocks;
    detected := [];
    ghost var visited: seq<Element> := [];
    var b := 0;
    label blockLoop:
    while b < |blocks|
      invariant 0 <= b <= |blocks|
      invariant visited == BlockElements(blocks[..b])
      invariant detected == Matches(visited, query, toPreview)
      invariant |detected| < MaxMatches
    {
      var lines := blocks[b].lines;
      ghost var blocksDone := visited;
      var l := 0;
      while l < |lines|
        invariant 0 <= l <= |lines|
        invariant visited == blocksDone + LineElements(lines[..l])
        invariant detected == Matches(visited, query, toPreview)
        invariant |detected| < MaxMatches
      {
        var elements := lines[l].elements;
        ghost var linesDone := visited;
        var e := 0;
        while e < |elements|
          invariant 0 <= e <= |elements|
          invariant visited == linesDone + elements[..e]
          invariant detected == Matches(visited, query, toPreview)
          invariant |detected| < MaxMatches
        {
          var element := elements[e];
          MatchesNext(visited, element, query, toPreview);
          AppendNextOfSlice(linesDone, elements, e);
          visited := visited + [element];
          if Qualifies(element, query) {
            detected := detected + [Corners(element, toPreview)];
            if |detected| >= MaxMatches {
              assert detected == FirstMatches(text, query, toPreview) by {
                VisitedPrefix(text, b, l, e);
                CapReachedOnPrefix(visited, Elements(text), query, toPreview);
              }
              break blockLoop;
            }
          }
          e := e + 1;
        }
        assert elements[..e] == elements;
        assert visited == blocksDone + LineElements(lines[..l + 1]) by {
          LineElementsNext(lines, l);
          AppendAssoc(blocksDone, LineElements(lines[..l]), elements);
        }
        l := l + 1;
      }
      assert visited == BlockElements(blocks[..b + 1]) by {
        assert lines[..l] == lines;
        BlockElementsNext(blocks, b);
      }
      b := b + 1;
    }
    assert blocks[..|blocks|] == blocks;
  }
}
