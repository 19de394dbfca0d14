/**
 The `Scrabble` component: it builds the same length index as the
 brute-force service, but its query is an unfinished stub that hands its input
 back unchanged.
 */
module ScrabbleStub {
  import opened WordIndex

  class Scrabble {
    /** Word length to the dictionary words of that length, in list order. */
    var wordLengthMap: map<int, seq<string>>
    /** The dictionary the index was built from. */
    ghost const Words: seq<string>

    ghost predicate Valid()
      reads this
    {
      wordLengthMap == LengthIndex(Words)
    }

    /** Builds the index from the dictionary (given here instead of read from a resource). */
    constructor (wordList: seq<string>)
      ensures Words == wordList && Valid()
    {
      var index := SortWordsByLength(wordList);
      Words := wordList;
      wordLengthMap := index;
    }

    /** The stub query: returns its argument and leaves the index alone. */
    method Scrabble(inputChars: string) returns (r: string)
      ensures r == inputChars
    {
      return inputChars;
    }
  }
}
