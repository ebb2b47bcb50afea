/** Field locator: the words extracted from a report and the exact-match
    search that finds the rendered position of an anchor label. */
module Locator {

  /** One extracted word, as the word extractor delivers it: the index of
      the page it sits on, its text, its left edge, its distance from the
      top edge of the page, and its font size and font name. */
  datatype Word = Word(pageNumber: nat, text: string, x0: real, top: real, size: real, fontName: string)

  /** The words of `words` whose text equals `searchText` exactly, in input order.
      Defined from the back so that it follows a loop that appends. */
  function Matches(words: seq<Word>, searchText: string): (r: seq<Word>)
    ensures |r| <= |words|
    ensures forall k :: 0 <= k < |r| ==> r[k].text == searchText
  {
    if words == [] then []
    else
      var rest := Matches(words[..|words| - 1], searchText);
      if words[|words| - 1].text == searchText then rest + [words[|words| - 1]] else rest
  }

  /** Walks the words in order and appends every one whose text is the label. */
  method FindTextPositions(words: seq<Word>, searchText: string) returns (positions: seq<Word>)
    ensures positions == Matches(words, searchText)
  {
    positions := [];
    for i := 0 to |words|
      invariant positions == Matches(words[..i], searchText)
    {
      assert words[..i + 1][..i] == words[..i];
      if words[i].text == searchText {
        positions := positions + [words[i]];
      }
    }
    assert words[..|words|] == words;
  }

  /** `idx` lists, in increasing order, exactly the indices of `words` whose
      word carries the label, and `found` holds those words in that order. */
  ghost predicate IndexedMatches(words: seq<Word>, searchText: string, found: seq<Word>, idx: seq<nat>) {
    && |idx| == |found|
    && (forall k :: 0 <= k < |idx| ==> idx[k] < |words| && found[k] == words[idx[k]])
    && (forall k, l :: 0 <= k < l < |idx| ==> idx[k] < idx[l])
    && (forall j :: 0 <= j < |words| ==> (words[j].text == searchText <==> j in idx))
  }

  /** The matches are exactly the words at the indices `idx`, which increase
      strictly and are precisely the indices whose word carries the label:
      an order-preserving subsequence that misses no hit. */
  lemma {:induction false} MatchIndices(words: seq<Word>, searchText: string) returns (idx: seq<nat>)
    ensures |idx| == |Matches(words, searchText)|
    ensures forall k :: 0 <= k < |idx| ==> idx[k] < |words| && Matches(words, searchText)[k] == words[idx[k]]
    ensures forall k, l :: 0 <= k < l < |idx| ==> idx[k] < idx[l]
    ensures forall j :: 0 <= j < |words| ==> (words[j].text == searchText <==> j in idx)
  {
    if words == [] {
      idx := [];
    } else {
      var n := |words| - 1;
      var pre := MatchIndices(words[..n], searchText);
      idx := ExtendIndices(words, searchText, pre);
    }
  }

  /** Extends the indices of the matches among all but the last word to the
      indices of the matches among all the words. */
  lemma ExtendIndices(words: seq<Word>, searchText: string, pre: seq<nat>) returns (idx: seq<nat>)
    requires words != []
    requires IndexedMatches(words[..|words| - 1], searchText, Matches(words[..|words| - 1], searchText), pre)
    ensures IndexedMatches(words, searchText, Matches(words, searchText), idx)
  {
    var n := |words| - 1;
    var prefix := words[..n];
    var rest := Matches(prefix, searchText);
    assert forall k :: 0 <= k < |pre| ==> rest[k] == words[pre[k]];
    if words[n].text == searchText {
      idx := pre + [n];
      assert Matches(words, searchText) == rest + [words[n]];
      forall j | 0 <= j < |words|
        ensures words[j].text == searchText <==> j in idx
      {
        if j < n {
          assert words[j] == prefix[j];
          assert j in idx <==> j in pre;
        }
      }
    } else {
      idx := pre;
      assert Matches(words, searchText) == rest;
      forall j | 0 <= j < |words|
        ensures words[j].text == searchText <==> j in idx
      {
        if j < n {
          assert words[j] == prefix[j];
        } else {
          assert j !in pre;
        }
      }
    }
  }

  /** There is no match exactly when no word carries the label. */
  lemma {:induction false} NoMatchIffAbsent(words: seq<Word>, searchText: string)
    ensures Matches(words, searchText) == [] <==> forall j :: 0 <= j < |words| ==> words[j].text != searchText
  {
    var idx := MatchIndices(words, searchText);
    if Matches(words, searchText) != [] {
      assert idx[0] < |words| && words[idx[0]].text == searchText;
    }
  }

  /** Searching a concatenation searches each part in turn. */
  lemma {:induction false} MatchesAppend(a: seq<Word>, b: seq<Word>, searchText: string)
    ensures Matches(a + b, searchText) == Matches(a, searchText) + Matches(b, searchText)
    decreases |b|
  {
    if b == [] {
      assert a + b == a;
    } else {
      var n := |b| - 1;
      assert (a + b)[..|a + b| - 1] == a + b[..n];
      MatchesAppend(a, b[..n], searchText);
    }
  }
}
