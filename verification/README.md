# Longest constructible word: a Dafny model

This project models the word-matching core of the ScrabbleProject solver. Given
a string of input characters, the solver finds the longest dictionary word that
can be spelled from them. Spelling respects how often each character occurs and
is case-sensitive. The project has four parts:

- **Dictionary index** (`word_index.dfy`, module `WordIndex`). `sortWordsByLength`
  turns the word list into `wordLengthMap`. That map sends each word length to the
  words of that length, in list order. The method `SortWordsByLength` models the
  builder loop. The function `LengthIndex` specifies its result: each length that
  occurs maps to the word list filtered to that length. `ScrabbleBruteForceService`
  and `Scrabble` contain the same builder character for character, so both
  classes use this one model and its lemmas.
- **Brute-force matcher** (`brute_force.dfy`, module `ScrabbleBruteForce`, class
  `ScrabbleBruteForceService`). `BreakWordIntoCharCountMap` builds a
  character-to-count profile. Its contract says the profile is exactly
  `multiset(s)`. `CheckWordAgainstCharacters` is the subset test. `Scrabble` is
  the query. It tries lengths from `|input|` down to 1 and, within a length,
  scans the bucket in stored order. The first word that passes the test is
  returned, and `""` means no word passed. The query's promise is the predicate
  `IsAnswer`. `AnswerUnique` proves that this promise determines the result.
  `AnswerInDictionary` restates the promise over the word list itself
  (`IsLongestFirst`).
- **Stub component** (`scrabble_stub.dfy`, module `ScrabbleStub`, class
  `Scrabble`). Its constructor builds the same index. Its `scrabble` is
  unfinished and returns its argument unchanged.
- **Scenarios** (`scenarios.dfy`). The assertions of the brute-force test class
  are proved as lemmas over a small explicit dictionary.

The word list is a constructor parameter. The model does not read it from a
resource file. `wordLengthMap` is a class field. The query methods have no
`modifies` clause, so the verifier checks that a query never changes the index.

Ties within one length go to the word that comes first in the word list. The doc
comment at `ScrabbleBruteForceService.java:52` says same-length words are
prioritised "in alphabetical order". The code has no sort step, so the model
follows the code. `Scenarios.ListOrderBreaksTies` proves a case where the
listed-first word wins over the alphabetically first one.

## Model

| member | source | states |
|---|---|---|
| `WordIndex.SortWordsByLength` | src/main/java/me/dfastje/ScrabbleProject/ScrabbleBruteForceService.java:107-122 | The map built by the loop equals `LengthIndex(wordList)`: a key for each occurring length, holding the list filtered to that length in list order. |
| `WordIndex.LengthIndexAppend` | src/main/java/me/dfastje/ScrabbleProject/ScrabbleBruteForceService.java:110-118 | Adding one word appends it to the bucket of its length. The bucket is created holding just that word if the length was new. No other bucket changes. |
| `WordIndex.LengthsOccur` | src/main/java/me/dfastje/ScrabbleProject/Scrabble.java:73-77 | A length occurs in the list iff some list position holds a word of that length. |
| `WordIndex.BucketEmptyIffAbsent` | src/main/java/me/dfastje/ScrabbleProject/Scrabble.java:73-77 | A length's bucket is empty exactly when no listed word has that length. |
| `WordIndex.IndexKeys` | src/main/java/me/dfastje/ScrabbleProject/Scrabble.java:73-77 | A length is a key iff some listed word has that length, and no bucket is empty. |
| `WordIndex.IndexBucketLengths` | src/main/java/me/dfastje/ScrabbleProject/Scrabble.java:70-85 | Every word in bucket `len` has length exactly `len` and comes from the list. |
| `WordIndex.BucketWordsHaveLength` | src/main/java/me/dfastje/ScrabbleProject/ScrabbleBruteForceService.java:110-118 | A word of a filtered bucket has the bucket's length and comes from the list. |
| `WordIndex.BucketPositions` | src/main/java/me/dfastje/ScrabbleProject/ScrabbleBruteForceService.java:109-119 | The k-th word of a bucket is the word at the k-th list position holding a word of that length. Those positions increase strictly, and none is missed. |
| `WordIndex.BucketMultiplicity` | src/main/java/me/dfastje/ScrabbleProject/ScrabbleBruteForceService.java:109-119 | A bucket holds each word of its length exactly as many times as the list does, and no other word. |
| `WordIndex.IndexMultiplicity` | src/main/java/me/dfastje/ScrabbleProject/Scrabble.java:72-82 | The buckets partition the list. Every listed word's length is a key. Each word appears in its own bucket as often as in the list, and in no other bucket. Nothing is dropped or duplicated. |
| `WordIndex.IndexPreservesOrder` | src/main/java/me/dfastje/ScrabbleProject/Scrabble.java:72-82 | Two same-length words at list positions `i < j` appear in their bucket in the same relative order. |
| `ScrabbleBruteForce.ScrabbleBruteForceService.constructor` | src/main/java/me/dfastje/ScrabbleProject/ScrabbleBruteForceService.java:45-48 | The constructor sets `wordLengthMap` to the length index of the given word list. |
| `ScrabbleBruteForce.ScrabbleBruteForceService.Scrabble` | src/main/java/me/dfastje/ScrabbleProject/ScrabbleBruteForceService.java:58-81 | The result is `""` or the first constructible word of its own bucket, with length in 1..the input length. No bucket with a length between the result's length (exclusive) and the input length holds a constructible word. The query reads the index and does not change it. |
| `ScrabbleBruteForce.ScrabbleBruteForceService.CheckWordAgainstCharacters` | src/main/java/me/dfastje/ScrabbleProject/ScrabbleBruteForceService.java:135-149 | Returns true exactly when every character of the word is a key of the given profile with a count at least the word's count. Returns false when a character is absent or short. |
| `ScrabbleBruteForce.ScrabbleBruteForceService.BreakWordIntoCharCountMap` | src/main/java/me/dfastje/ScrabbleProject/ScrabbleBruteForceService.java:157-173 | The map has a key for exactly the characters of the string. Each key maps to its occurrence count, so the map is `multiset(s)`. |
| `ScrabbleBruteForce.FitsIffConstructible` | src/main/java/me/dfastje/ScrabbleProject/ScrabbleBruteForceService.java:138-148 | Against the input's profile, the subset test passes iff `multiset(word) <= multiset(input)`. |
| `ScrabbleBruteForce.EmptyInputNoAnswer` | src/main/java/me/dfastje/ScrabbleProject/ScrabbleBruteForceService.java:60-80 | For the empty input no length is tried, so the only answer is `""`. |
| `ScrabbleBruteForce.AnswerUnique` | src/main/java/me/dfastje/ScrabbleProject/ScrabbleBruteForceService.java:64-80 | At most one string meets the query's promise for an index and an input, so the query is deterministic. |
| `ScrabbleBruteForce.LongerWordDoesNotFit` | src/main/java/me/dfastje/ScrabbleProject/ScrabbleBruteForceService.java:64-72 | Over the index of a list, a listed word longer than the answer and no longer than the input is not constructible. |
| `ScrabbleBruteForce.AnswerFirstInList` | src/main/java/me/dfastje/ScrabbleProject/ScrabbleBruteForceService.java:66-71 | Over the index of a list, a non-empty answer sits at a list position before which no word of the same length is constructible. |
| `ScrabbleBruteForce.AnswerInDictionary` | src/main/java/me/dfastje/ScrabbleProject/ScrabbleBruteForceService.java:64-80 | Over `LengthIndex(words)`, a non-empty answer is a listed, constructible word with length in 1..the input length. It is the first constructible word of its length in list order. No longer listed word, up to the input length, is constructible. |
| `ScrabbleStub.Scrabble.constructor` | src/main/java/me/dfastje/ScrabbleProject/Scrabble.java:35-38 | The constructor sets `wordLengthMap` to the same length index as the brute-force service builds from the same list. |
| `ScrabbleStub.Scrabble.Scrabble` | src/main/java/me/dfastje/ScrabbleProject/Scrabble.java:40-44 | The stub returns its argument unchanged and does not touch the index. |
| `Scenarios.SanityCheck` | src/test/java/me/dfastje/ScrabbleProject/ScrabbleBruteForceServiceTest.java:22-25 | With the small dictionary, "a" yields "a". |
| `Scenarios.RancaryCheck` | src/test/java/me/dfastje/ScrabbleProject/ScrabbleBruteForceServiceTest.java:29 | With the small dictionary, "rancary" yields "canary". |
| `Scenarios.RancryCheck` | src/test/java/me/dfastje/ScrabbleProject/ScrabbleBruteForceServiceTest.java:30 | With the small dictionary, "rancry" yields "carry", because "canary" needs two a's. |
| `Scenarios.CapitalizationCheck` | src/test/java/me/dfastje/ScrabbleProject/ScrabbleBruteForceServiceTest.java:34-37 | With only lower-case "a" in the dictionary, "A" yields "". |
| `Scenarios.NoMatchingWord` | src/test/java/me/dfastje/ScrabbleProject/ScrabbleBruteForceServiceTest.java:39-42 | With the small dictionary, "zzzz" yields "". |
| `Scenarios.CharacterCountCheck` | src/test/java/me/dfastje/ScrabbleProject/ScrabbleBruteForceServiceTest.java:54-58 | "falsee" yields "false" and not "assess", because counts are compared and not mere presence. |
| `Scenarios.ListOrderBreaksTies` | src/main/java/me/dfastje/ScrabbleProject/ScrabbleBruteForceService.java:52 | Among same-length constructible words, the one listed first wins even when it is not alphabetically first. This is contrary to the doc comment. |

## Left out

- `readWordsFromFile` in both classes is not modelled. It does classloader resource lookup, file reading, and wraps I/O errors in a fatal `RuntimeException`. The word list is a constructor parameter instead.
- Logging calls are not modelled because they only produce diagnostic output.
- Spring annotations and dependency injection are not modelled.
- The index is a plain `map<int, seq<string>>`. The model does not capture `ConcurrentHashMap` and `LinkedList` concurrency, or the aliasing of the bucket lists that `sortWordsByLength` appends to in place. Build and query are sequential.
- Null arguments are not modelled. In Java they throw `NullPointerException`.
- Java `char` is modelled as Dafny `char`, and `String.length()` as sequence length. UTF-16 surrogate pairs get no special treatment.
- The order in which `checkWordAgainstCharacters` visits the word's profile entries is `HashMap` order in Java. The model picks an arbitrary unchecked key each time, and the result does not depend on the order.
- `ScrabbleTest` asserts solver answers against the stub `scrabble`. Two of its five assertions ("zzzz" expecting "", "falsee" expecting "false") contradict the stub, which returns its input. The other three hold only because the expected answer equals the input ("a", "recommendation") or is merely required to be non-null. The model follows the stub's code; `Scenarios.StubScenarios` shows the echo on these inputs. `ScrabbleServiceTest` exercises a `ScrabbleService` class that is not part of this model.
- The "recommendation" test cases are not reproduced. Their outcome depends on the bundled word list, which is not part of this model.
