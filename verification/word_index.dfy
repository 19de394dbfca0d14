/**
 The dictionary index: a word list organised as a map from word length to the
 words of that length, each bucket keeping the words in their list order.

 Both `ScrabbleBruteForceService` and `Scrabble` build their `wordLengthMap`
 with the same `sortWordsByLength`; it is modelled once here, by the method
 `SortWordsByLength`, and specified by the function `LengthIndex`.
 */
module WordIndex {

  /** The words of `words` whose length is exactly `len`, in list order. */
  function Bucket(words: seq<string>, len: int): seq<string>
  {
    if words == [] then []
    else
      var last := words[|words| - 1];
      Bucket(words[..|words| - 1], len) + (if |last| == len then [last] else [])
  }

  /** The positions in `words` of the words whose length is `len`, ascending. */
  function Positions(words: seq<string>, len: int): seq<int>
  {
    if words == [] then []
    else
      Positions(words[..|words| - 1], len) + (if |words[|words| - 1]| == len then [|words| - 1] else [])
  }

  /** The lengths that occur in `words`. */
  function Lengths(words: seq<string>): set<int>
  {
    if words == [] then {} else Lengths(words[..|words| - 1]) + {|words[|words| - 1]|}
  }

  /** The index the builder is meant to produce: one bucket per occurring length. */
  function LengthIndex(words: seq<string>): map<int, seq<string>>
  {
    map len | len in Lengths(words) :: Bucket(words, len)
  }

  /**
   The builder: walks the word list once, appending each word to the bucket of
   its length and creating that bucket when its first word arrives.
   */
  method SortWordsByLength(wordList: seq<string>) returns (wordLengthMap: map<int, seq<string>>)
    ensures wordLengthMap == LengthIndex(wordList)
  {
    wordLengthMap := map[];
    for i := 0 to |wordList|
      invariant wordLengthMap == LengthIndex(wordList[..i])
    {
      var word := wordList[i];
      assert wordList[..i + 1] == wordList[..i] + [word];
      LengthIndexAppend(wordList[..i], word);
      var firstWordOfThisLength := |word| !in wordLengthMap;
      if firstWordOfThisLength {
        wordLengthMap := wordLengthMap[|word| := [word]];
      } else {
        var existingWordList := wordLengthMap[|word|];
        wordLengthMap := wordLengthMap[|word| := existingWordList + [word]];
      }
    }
    assert wordList[..|wordList|] == wordList;
  }

  /** A length occurs in the list exactly when some position holds a word of that length. */
  lemma {:induction false} LengthsOccur(words: seq<string>, len: int)
    ensures len in Lengths(words) <==> exists i :: 0 <= i < |words| && |words[i]| == len
  {
    if words != [] {
      var init := words[..|words| - 1];
      LengthsOccur(init, len);
      if len in Lengths(init) {
        var i :| 0 <= i < |init| && |init[i]| == len;
        assert words[i] == init[i];
      }
      if exists i :: 0 <= i < |words| && |words[i]| == len {
        var i :| 0 <= i < |words| && |words[i]| == len;
        if i < |init| {
          assert init[i] == words[i];
        }
      }
    }
  }

  /** A bucket is empty exactly when no word of the list has its length. */
  lemma {:induction false} BucketEmptyIffAbsent(words: seq<string>, len: int)
    ensures Bucket(words, len) == [] <==> len !in Lengths(words)
  {
    if words != [] {
      var init, last := words[..|words| - 1], words[|words| - 1];
      assert words == init + [last];
      BucketEmptyIffAbsent(init, len);
      assert Lengths(words) == Lengths(init) + {|last|};
    }
  }

  /** Helper for `LengthIndexAppend`: adding a word extends the bucket of its length by that word only. */
  lemma BucketAppend(words: seq<string>, word: string, len: int)
    ensures Bucket(words + [word], len) == Bucket(words, len) + (if |word| == len then [word] else [])
  {
    assert (words + [word])[..|words|] == words;
  }

  /** Helper for `LengthIndexAppend`: adding a word adds its length to the occurring lengths. */
  lemma LengthsAppend(words: seq<string>, word: string)
    ensures Lengths(words + [word]) == Lengths(words) + {|word|}
  {
    assert (words + [word])[..|words|] == words;
  }

  /**
   One step of the builder: adding a word to the list appends it to the bucket
   of its length, creating that bucket if it was absent, and changes no other bucket.
   */
  lemma LengthIndexAppend(words: seq<string>, word: string)
    ensures LengthIndex(words + [word]) ==
      if |word| in LengthIndex(words)
      then LengthIndex(words)[|word| := LengthIndex(words)[|word|] + [word]]
      else LengthIndex(words)[|word| := [word]]
  {
    var before, after := LengthIndex(words), LengthIndex(words + [word]);
    var expected := if |word| in before then before[|word| := before[|word|] + [word]] else before[|word| := [word]];
    LengthsAppend(words, word);
    BucketEmptyIffAbsent(words, |word|);
    assert after.Keys == expected.Keys;
    forall len | len in expected
      ensures after[len] == expected[len]
    {
      BucketAppend(words, word, len);
    }
  }

  /** Every word of a bucket is a word of the list and has the bucket's length. */
  lemma {:induction false} BucketWordsHaveLength(words: seq<string>, len: int, w: string)
    requires w in Bucket(words, len)
    ensures |w| == len && w in words
  {
    var init, last := words[..|words| - 1], words[|words| - 1];
    assert words == init + [last];
    if w in Bucket(init, len) {
      BucketWordsHaveLength(init, len, w);
    }
  }

  /**
   A bucket lists exactly the words of length `len`, in list order: its k-th
   word is the word at the k-th such position, the positions strictly increase,
   and every position holding a word of length `len` is among them.
   */
  lemma {:induction false} BucketPositions(words: seq<string>, len: int)
    ensures |Positions(words, len)| == |Bucket(words, len)|
    ensures forall k :: 0 <= k < |Positions(words, len)| ==>
      0 <= Positions(words, len)[k] < |words| && words[Positions(words, len)[k]] == Bucket(words, len)[k]
    ensures forall k, k' :: 0 <= k < k' < |Positions(words, len)| ==>
      Positions(words, len)[k] < Positions(words, len)[k']
    ensures forall i :: 0 <= i < |words| && |words[i]| == len ==> i in Positions(words, len)
  {
    if words != [] {
      var init := words[..|words| - 1];
      BucketPositions(init, len);
      assert forall i :: 0 <= i < |init| ==> words[i] == init[i];
    }
  }

  /** A word of length `len` at list position `i` is in the bucket, at the index its position gets. */
  lemma PositionInBucket(words: seq<string>, len: int, i: int) returns (k: int)
    requires 0 <= i < |words| && |words[i]| == len
    ensures 0 <= k < |Bucket(words, len)| && Bucket(words, len)[k] == words[i]
    ensures |Positions(words, len)| == |Bucket(words, len)| && Positions(words, len)[k] == i
  {
    BucketPositions(words, len);
    var ps := Positions(words, len);
    assert i in ps;
    k :| 0 <= k < |ps| && ps[k] == i;
  }

  /**
   A bucket holds each word of length `len` exactly as many times as the list
   does, and no other word.
   */
  lemma {:induction false} BucketMultiplicity(words: seq<string>, len: int, w: string)
    ensures multiset(Bucket(words, len))[w] == if |w| == len then multiset(words)[w] else 0
  {
    if words != [] {
      var init, last := words[..|words| - 1], words[|words| - 1];
      assert words == init + [last];
      BucketMultiplicity(init, len, w);
    }
  }

  /** The index has a key exactly for each length that occurs, and no bucket is empty. */
  lemma IndexKeys(words: seq<string>, len: int)
    ensures len in LengthIndex(words) <==> exists i :: 0 <= i < |words| && |words[i]| == len
    ensures len in LengthIndex(words) ==> LengthIndex(words)[len] != []
  {
    LengthsOccur(words, len);
    BucketEmptyIffAbsent(words, len);
  }

  /** Every bucket holds only words of the list whose length is the bucket's key. */
  lemma IndexBucketLengths(words: seq<string>, len: int, w: string)
    requires len in LengthIndex(words) && w in LengthIndex(words)[len]
    ensures |w| == len && w in words
  {
    BucketWordsHaveLength(words, len, w);
  }

  /**
   The index partitions the list: every word appears in the bucket of its own
   length exactly as often as in the list, and in no other bucket.
   */
  lemma IndexMultiplicity(words: seq<string>, w: string)
    ensures w in words ==> |w| in LengthIndex(words)
    ensures forall len :: len in LengthIndex(words) ==>
      multiset(LengthIndex(words)[len])[w] == if len == |w| then multiset(words)[w] else 0
  {
    forall len | len in LengthIndex(words)
      ensures multiset(LengthIndex(words)[len])[w] == if len == |w| then multiset(words)[w] else 0
    {
      BucketMultiplicity(words, len, w);
    }
    if w in words {
      var i :| 0 <= i < |words| && words[i] == w;
      LengthsOccur(words, |w|);
    }
  }

  /**
   Same-length words keep their list order in the index: if `i < j` are
   positions of two words of length `len`, the word at `i` comes earlier in the
   bucket than the word at `j`.
   */
  lemma IndexPreservesOrder(words: seq<string>, len: int, i: int, j: int)
    requires 0 <= i < j < |words| && |words[i]| == len && |words[j]| == len
    ensures len in LengthIndex(words)
    ensures exists ki, kj ::
      && 0 <= ki < kj < |LengthIndex(words)[len]|
      && LengthIndex(words)[len][ki] == words[i]
      && LengthIndex(words)[len][kj] == words[j]
  {
    BucketPositions(words, len);
    var ps := Positions(words, len);
    assert i in ps && j in ps;
    var ki :| 0 <= ki < |ps| && ps[ki] == i;
    var kj :| 0 <= kj < |ps| && ps[kj] == j;
    LengthsOccur(words, len);
    assert ki < kj;
  }
}
