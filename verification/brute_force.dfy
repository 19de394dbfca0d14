/**
 The brute-force longest-word solver. A query builds the character-frequency
 profile of its input, then tries lengths from the input's length down to 1 and,
 within each length, the dictionary words in bucket order; the first word whose
 profile fits inside the input's profile is the answer, and `""` means none fits.
 Characters are compared exactly: there is no case folding.
 */
module ScrabbleBruteForce {
  import opened WordIndex

  /**
   `counts` is the character-frequency profile of `s`: it has a key for exactly
   the characters of `s`, each mapped to its number of occurrences.
   */
  ghost predicate IsProfileOf(counts: map<char, int>, s: string)
  {
    && (forall c :: c in counts <==> c in multiset(s))
    && (forall c :: c in counts ==> counts[c] == multiset(s)[c])
  }

  /** Each character of `word` is a key of `counts` with at least the word's count. */
  ghost predicate Fits(word: string, counts: map<char, int>)
  {
    forall c :: c in multiset(word) ==> c in counts && multiset(word)[c] <= counts[c]
  }

  /** `word` can be spelled from the characters of `input`, respecting multiplicity. */
  predicate Constructible(word: string, input: string)
  {
    multiset(word) <= multiset(input)
  }

  /** No word in the bucket for `len` (if there is one) can be spelled from `input`. */
  ghost predicate NoFit(index: map<int, seq<string>>, len: int, input: string)
  {
    len in index ==> forall j :: 0 <= j < |index[len]| ==> !Constructible(index[len][j], input)
  }

  /** `r` is the first word of the bucket for `len` that can be spelled from `input`. */
  ghost predicate FirstFit(index: map<int, seq<string>>, len: int, input: string, r: string)
  {
    && len in index
    && exists k ::
      && 0 <= k < |index[len]|
      && index[len][k] == r
      && Constructible(r, input)
      && forall j :: 0 <= j < k ==> !Constructible(index[len][j], input)
  }

  /**
   What a query promises: either `""` or the first constructible word of the
   bucket for its own length, that length lying between 1 and `|input|`; and no
   longer bucket, up to `|input|`, holds a constructible word.
   */
  ghost predicate IsAnswer(index: map<int, seq<string>>, input: string, r: string)
  {
    && (r == "" || (|r| <= |input| && FirstFit(index, |r|, input, r)))
    && forall len :: |r| < len <= |input| ==> NoFit(index, len, input)
  }

  /** With the profile of `input` in hand, the subset test is multiset inclusion. */
  lemma FitsIffConstructible(word: string, counts: map<char, int>, input: string)
    requires IsProfileOf(counts, input)
    ensures Fits(word, counts) <==> Constructible(word, input)
  {
    if Fits(word, counts) {
      forall c ensures multiset(word)[c] <= multiset(input)[c] {
        if c in multiset(word) {
          assert multiset(word)[c] <= counts[c];
        }
      }
    }
  }

  /**
   Helper for `AnswerUnique`: no bucket longer than an answer, up to the
   input's length, has a first fit.
   */
  lemma LongerBucketHasNoFit(index: map<int, seq<string>>, input: string, r: string, len: int, w: string)
    requires IsAnswer(index, input, r) && |r| < len <= |input|
    ensures !FirstFit(index, len, input, w)
  {
    assert NoFit(index, len, input);
  }

  /** An empty input has only the empty answer: no length lies in 1..0. */
  lemma EmptyInputNoAnswer(index: map<int, seq<string>>, r: string)
    requires IsAnswer(index, "", r)
    ensures r == ""
  {
  }

  /** A query has at most one answer: the result is determined by index and input. */
  lemma AnswerUnique(index: map<int, seq<string>>, input: string, r1: string, r2: string)
    requires IsAnswer(index, input, r1) && IsAnswer(index, input, r2)
    ensures r1 == r2
  {
    if |r1| < |r2| {
      LongerBucketHasNoFit(index, input, r1, |r2|, r2);
      assert false;
    } else if |r2| < |r1| {
      LongerBucketHasNoFit(index, input, r2, |r1|, r1);
      assert false;
    } else if r1 != "" {
      var b := index[|r1|];
      var k1 :| 0 <= k1 < |b| && b[k1] == r1 && Constructible(r1, input)
        && forall j :: 0 <= j < k1 ==> !Constructible(b[j], input);
      var k2 :| 0 <= k2 < |b| && b[k2] == r2 && Constructible(r2, input)
        && forall j :: 0 <= j < k2 ==> !Constructible(b[j], input);
      if k1 != k2 {
        // the earlier of the two would be a constructible word before the later
        assert false;
      }
    }
  }

  /**
   The answer promised over a whole word list: a non-empty `r` is a constructible
   word of the list with length between 1 and `|input|`, the first such word of
   its length in list order; and no longer word of the list, up to `|input|`,
   is constructible.
   */
  ghost predicate IsLongestFirst(words: seq<string>, input: string, r: string)
  {
    && (r != "" ==> 1 <= |r| <= |input| && r in words && Constructible(r, input))
    && (r != "" ==> exists i ::
      && 0 <= i < |words|
      && words[i] == r
      && forall j :: 0 <= j < i && |words[j]| == |r| ==> !Constructible(words[j], input))
    && (forall i :: 0 <= i < |words| && |r| < |words[i]| <= |input| ==> !Constructible(words[i], input))
  }

  /** Over the index of a list, a listed word longer than the answer (up to `|input|`) does not fit. */
  lemma LongerWordDoesNotFit(words: seq<string>, input: string, r: string, i: int)
    requires IsAnswer(LengthIndex(words), input, r)
    requires 0 <= i < |words| && |r| < |words[i]| <= |input|
    ensures !Constructible(words[i], input)
  {
    var len := |words[i]|;
    var k := PositionInBucket(words, len, i);
    LengthsOccur(words, len);
    assert NoFit(LengthIndex(words), len, input);
  }

  /**
   Over the index of a list, a non-empty answer sits at some list position `i`,
   and no earlier word of the same length fits.
   */
  lemma AnswerFirstInList(words: seq<string>, input: string, r: string) returns (i: int)
    requires IsAnswer(LengthIndex(words), input, r) && r != ""
    ensures 0 <= i < |words| && words[i] == r
    ensures forall j :: 0 <= j < i && |words[j]| == |r| ==> !Constructible(words[j], input)
  {
    var len := |r|;
    var b := LengthIndex(words)[len];
    var k :| 0 <= k < |b| && b[k] == r && Constructible(r, input)
      && forall j :: 0 <= j < k ==> !Constructible(b[j], input);
    BucketPositions(words, len);
    var ps := Positions(words, len);
    i := ps[k];
    forall j | 0 <= j < i && |words[j]| == |r|
      ensures !Constructible(words[j], input)
    {
      var kj := PositionInBucket(words, len, j);
    }
  }

  /** An answer over the index of a word list is the longest-first answer over the list. */
  lemma AnswerInDictionary(words: seq<string>, input: string, r: string)
    requires IsAnswer(LengthIndex(words), input, r)
    ensures IsLongestFirst(words, input, r)
  {
    forall i | 0 <= i < |words| && |r| < |words[i]| <= |input|
      ensures !Constructible(words[i], input)
    {
      LongerWordDoesNotFit(words, input, r, i);
    }
    if r != "" {
      var i := AnswerFirstInList(words, input, r);
    }
  }

  class ScrabbleBruteForceService {
    /** Word length to the dictionary words of that length, in list order. */
    var wordLengthMap: map<int, seq<string>>
    /** The dictionary the index was built from. */
    ghost const Words: seq<string>

    ghost predicate Valid()
      reads this
    {
      wordLengthMap == LengthIndex(Words)
    }

    /** Builds the index from the dictionary (given here instead of read from a resource). */
    constructor (wordList: seq<string>)
      ensures Words == wordList && Valid()
    {
      var index := SortWordsByLength(wordList);
      Words := wordList;
      wordLengthMap := index;
    }

    /**
     The query: the longest dictionary word of length 1..|inputChars| that can be
     spelled from `inputChars`, the first in bucket order among those of that
     length, or `""` when there is none. It only reads the index.
     */
    method Scrabble(inputChars: string) returns (r: string)
      requires Valid()
      ensures IsAnswer(wordLengthMap, inputChars, r)
    {
      var charCountMap := BreakWordIntoCharCountMap(inputChars);
      var longestPossibleWord := |inputChars|;
      var wordLengthToCheck := longestPossibleWord;
      while wordLengthToCheck > 0
        invariant 0 <= wordLengthToCheck <= |inputChars|
        invariant forall len :: wordLengthToCheck < len <= |inputChars| ==> NoFit(wordLengthMap, len, inputChars)
      {
        if wordLengthToCheck in wordLengthMap {
          var largestWords := wordLengthMap[wordLengthToCheck];
          for k := 0 to |largestWords|
            invariant forall j :: 0 <= j < k ==> !Constructible(largestWords[j], inputChars)
          {
            var word := largestWords[k];
            var matches := CheckWordAgainstCharacters(word, charCountMap);
            FitsIffConstructible(word, charCountMap, inputChars);
            if matches {
              IndexBucketLengths(Words, wordLengthToCheck, word);
              return word;
            }
          }
        }
        wordLengthToCheck := wordLengthToCheck - 1;
      }
      return "";
    }

    /**
     The subset test: true exactly when every character of `wordToCheck` is a key
     of `inputChars` with a count at least its count in the word.
     */
    method CheckWordAgainstCharacters(wordToCheck: string, inputChars: map<char, int>) returns (ok: bool)
      ensures ok <==> Fits(wordToCheck, inputChars)
    {
      var characterCountOfWordToCheck := BreakWordIntoCharCountMap(wordToCheck);
      var unchecked := characterCountOfWordToCheck.Keys;
      while unchecked != {}
        invariant unchecked <= characterCountOfWordToCheck.Keys
        invariant forall c :: c in characterCountOfWordToCheck && c !in unchecked ==>
          c in inputChars && characterCountOfWordToCheck[c] <= inputChars[c]
        decreases unchecked
      {
        var characterKey :| characterKey in unchecked;
        if characterKey !in inputChars {
          return false;
        }
        if characterCountOfWordToCheck[characterKey] > inputChars[characterKey] {
          return false;
        }
        unchecked := unchecked - {characterKey};
      }
      return true;
    }

    /** The character-frequency profile of `charString`, counted one index at a time. */
    method BreakWordIntoCharCountMap(charString: string) returns (charCountMap: map<char, int>)
      ensures IsProfileOf(charCountMap, charString)
    {
      charCountMap := map[];
      for i := 0 to |charString|
        invariant IsProfileOf(charCountMap, charString[..i])
      {
        var character := charString[i];
        assert charString[..i + 1] == charString[..i] + [character];
        var firstInstanceOfChar := character !in charCountMap;
        if firstInstanceOfChar {
          charCountMap := charCountMap[character := 1];
        } else {
          var charCount := charCountMap[character];
          charCount := charCount + 1;
          charCountMap := charCountMap[character := charCount];
        }
      }
      assert charString[..|charString|] == charString;
    }
  }
}
