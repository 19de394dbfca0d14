/**
 The solver's test expectations, replayed over a small explicit dictionary
 (the bundled word list is not part of this model).
 */
module Scenarios {
  import opened WordIndex
  import opened ScrabbleBruteForce
  import ScrabbleStub

  /** A small dictionary in which "assess" precedes "canary" and "carry" precedes "false". */
  function Dictionary(): seq<string>
  {
    ["a", "assess", "carry", "false", "canary"]
  }

  /** Capitalisation matters: with only lower-case "a" in the dictionary, "A" finds nothing. */
  lemma CapitalizationCheck(r: string)
    requires IsLongestFirst(["a"], "A", r)
    ensures r == ""
  {
    assert multiset("a")['a'] == 1 && multiset("A")['a'] == 0;
  }

  /** The sanity check: "a" yields "a". */
  lemma SanityCheck(r: string)
    requires IsLongestFirst(Dictionary(), "a", r)
    ensures r == "a"
  {
    assert Constructible(Dictionary()[0], "a");
  }

  /*
   Spelling facts about the small dictionary, one per lemma: several concrete
   multiset comparisons in one proof are far costlier than each on its own.
   */

  /** An input holding the word's letters plus some spare ones spells the word. */
  lemma SpelledWithSpare(word: string, input: string, spare: multiset<char>)
    requires multiset(input) == multiset(word) + spare
    ensures Constructible(word, input)
  {
  }

  lemma FalseFromFalsee() ensures Constructible("false", "falsee")
  {
    assert "falsee" == "false" + "e";
    SpelledWithSpare("false", "falsee", multiset("e"));
  }

  lemma NoAssessFromFalsee() ensures !Constructible("assess", "falsee")
  {
    assert multiset("assess") == multiset{'a', 's', 's', 'e', 's', 's'};
    assert multiset("falsee") == multiset{'f', 'a', 'l', 's', 'e', 'e'};
  }

  lemma NoCarryFromFalsee() ensures !Constructible("carry", "falsee")
  {
    assert "carry"[0] == 'c';
  }

  lemma NoCanaryFromFalsee() ensures !Constructible("canary", "falsee")
  {
    assert "canary"[0] == 'c';
  }

  lemma CanaryLetters() ensures multiset("canary") == multiset{'c', 'a', 'n', 'a', 'r', 'y'} {}
  lemma CarryLetters() ensures multiset("carry") == multiset{'c', 'a', 'r', 'r', 'y'} {}
  lemma RancaryLetters() ensures multiset("rancary") == multiset{'r', 'a', 'n', 'c', 'a', 'r', 'y'} {}
  lemma RancryLetters() ensures multiset("rancry") == multiset{'r', 'a', 'n', 'c', 'r', 'y'} {}

  lemma CanaryFromRancary() ensures Constructible("canary", "rancary")
  {
    CanaryLetters();
    RancaryLetters();
  }

  lemma NoAssessFromRancary() ensures !Constructible("assess", "rancary")
  {
    assert "assess"[1] == 's';
  }

  lemma CarryFromRancry() ensures Constructible("carry", "rancry")
  {
    CarryLetters();
    RancryLetters();
  }

  lemma NoCanaryFromRancry() ensures !Constructible("canary", "rancry")
  {
    CanaryLetters();
    RancryLetters();
  }

  lemma NoAssessFromRancry() ensures !Constructible("assess", "rancry")
  {
    assert "assess"[1] == 's';
  }

  lemma NoFalseFromRancry() ensures !Constructible("false", "rancry")
  {
    assert "false"[0] == 'f';
  }

  /**
   A constructible word of the list no longer than the input bounds the
   length of the answer from below.
   */
  lemma AnswerAtLeast(words: seq<string>, input: string, r: string, i: int)
    requires IsLongestFirst(words, input, r)
    requires 0 <= i < |words| && 0 < |words[i]| <= |input| && Constructible(words[i], input)
    ensures |words[i]| <= |r| && r in words && Constructible(r, input)
  {
  }

  /** The dictionary's words of five letters or more. */
  lemma LongDictionaryWords(r: string)
    requires r in Dictionary() && |r| >= 5
    ensures r == "assess" || r == "carry" || r == "false" || r == "canary"
  {
  }

  /** Counts matter, not mere presence: "falsee" yields "false", not "assess". */
  lemma CharacterCountCheck(r: string)
    requires IsLongestFirst(Dictionary(), "falsee", r)
    ensures r == "false"
  {
    FalseFromFalsee();
    AnswerAtLeast(Dictionary(), "falsee", r, 3);
    LongDictionaryWords(r);
    NoAssessFromFalsee();
    NoCarryFromFalsee();
    NoCanaryFromFalsee();
  }

  /** The requirements check, first half: "rancary" yields "canary". */
  lemma RancaryCheck(r: string)
    requires IsLongestFirst(Dictionary(), "rancary", r)
    ensures r == "canary"
  {
    CanaryFromRancary();
    AnswerAtLeast(Dictionary(), "rancary", r, 4);
    LongDictionaryWords(r);
    NoAssessFromRancary();
  }

  /** The requirements check, second half: "rancry" yields "carry", since "canary" needs two a's. */
  lemma RancryCheck(r: string)
    requires IsLongestFirst(Dictionary(), "rancry", r)
    ensures r == "carry"
  {
    CarryFromRancry();
    AnswerAtLeast(Dictionary(), "rancry", r, 2);
    LongDictionaryWords(r);
    NoCanaryFromRancry();
    NoAssessFromRancry();
    NoFalseFromRancry();
  }

  /** No dictionary word can be spelled from "zzzz". */
  lemma NoMatchingWord(r: string)
    requires IsLongestFirst(Dictionary(), "zzzz", r)
    ensures r == ""
  {
    if r != "" {
      assert false;
    }
  }

  /**
   Ties within a length go to the word listed first, not the alphabetically
   first: with "ba" listed before "ab", the input "ab" yields "ba".
   */
  lemma ListOrderBreaksTies(r: string)
    requires IsLongestFirst(["ba", "ab"], "ab", r)
    ensures r == "ba"
  {
    assert Constructible("ba", "ab") by {
      assert multiset("ba") == multiset{'a', 'b'} == multiset("ab");
    }
    AnswerAtLeast(["ba", "ab"], "ab", r, 0);
    var i :| 0 <= i < 2 && ["ba", "ab"][i] == r
      && forall j :: 0 <= j < i && |["ba", "ab"][j]| == |r| ==> !Constructible(["ba", "ab"][j], "ab");
    if i == 1 {
      // "ba" comes earlier, has the same length and is constructible
      assert false;
    }
  }

  /** The service's query reproduces the test expectations on the small dictionary. */
  method ServiceScenarios()
  {
    var service := new ScrabbleBruteForceService(Dictionary());
    var a := service.Scrabble("a");
    AnswerInDictionary(Dictionary(), "a", a);
    SanityCheck(a);
    var rancary := service.Scrabble("rancary");
    AnswerInDictionary(Dictionary(), "rancary", rancary);
    RancaryCheck(rancary);
    var rancry := service.Scrabble("rancry");
    AnswerInDictionary(Dictionary(), "rancry", rancry);
    RancryCheck(rancry);
    var zzzz := service.Scrabble("zzzz");
    AnswerInDictionary(Dictionary(), "zzzz", zzzz);
    NoMatchingWord(zzzz);
    var falsee := service.Scrabble("falsee");
    AnswerInDictionary(Dictionary(), "falsee", falsee);
    CharacterCountCheck(falsee);
    var empty := service.Scrabble("");
    EmptyInputNoAnswer(service.wordLengthMap, empty);
    assert a == "a" && rancary == "canary" && rancry == "carry";
    assert zzzz == "" && falsee == "false" && empty == "";

    var onlyLower := new ScrabbleBruteForceService(["a"]);
    var upper := onlyLower.Scrabble("A");
    AnswerInDictionary(["a"], "A", upper);
    CapitalizationCheck(upper);
    assert upper == "";

    var tie := new ScrabbleBruteForceService(["ba", "ab"]);
    var ab := tie.Scrabble("ab");
    AnswerInDictionary(["ba", "ab"], "ab", ab);
    ListOrderBreaksTies(ab);
    assert ab == "ba";
  }

  /**
   The two components build identical indexes from the same word list. The stub
   echoes its input, so it agrees with the solver's expected answers only where
   those equal the input.
   */
  method StubScenarios(wordList: seq<string>)
  {
    var service := new ScrabbleBruteForceService(wordList);
    var stub := new ScrabbleStub.Scrabble(wordList);
    assert service.wordLengthMap == stub.wordLengthMap;
    var a := stub.Scrabble("a");
    var long := stub.Scrabble("recommendation");
    var zzzz := stub.Scrabble("zzzz");
    var falsee := stub.Scrabble("falsee");
    assert a == "a" && long == "recommendation";
    assert zzzz != "" && falsee != "false";
    assert stub.wordLengthMap == service.wordLengthMap;
  }
}
