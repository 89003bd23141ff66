/** `string_parser`: split an input line into its whitespace-separated words,
    in two passes over the C string (one to count, one to copy). The position
    `i` plays the role of the pointer `p`; `CharAt(input, i)` is `*p`. */
module Tokenizer {
  import opened Text

  /** `while (isspace(*p)) ++p;`: skipping whitespace loses no word. */
  method SkipSpaces(input: string, i: nat) returns (j: nat)
    requires i <= |input|
    ensures i <= j <= |input| && !IsSpace(CharAt(input, j))
    ensures TokensFrom(input, j) == TokensFrom(input, i)
  {
    j := i;
    while IsSpace(CharAt(input, j))
      invariant i <= j <= |input|
      invariant TokensFrom(input, j) == TokensFrom(input, i)
      decreases |input| - j
    {
      j := j + 1;
    }
  }

  /** `while (*p && !isspace(*p)) ++p;`: the end of the word at `i`. */
  method SkipWord(input: string, i: nat) returns (j: nat)
    requires i <= |input|
    ensures j == WordEnd(input, i) && j <= |input|
  {
    j := i;
    while IsWordChar(CharAt(input, j))
      invariant i <= j <= |input|
      invariant WordEnd(input, j) == WordEnd(input, i)
      decreases |input| - j
    {
      j := j + 1;
    }
  }

  /** First pass: count the maximal runs of non-whitespace. */
  method CountWords(input: string) returns (n: nat)
    ensures n == |Split(input)|
    ensures n == 0 <==> forall k :: 0 <= k < Terminator(input, 0) ==> IsSpace(input[k])
  {
    n := 0;
    var i := 0;
    while CharAt(input, i) != NUL
      invariant i <= |input|
      invariant n + |TokensFrom(input, i)| == |Split(input)|
      decreases |input| - i
    {
      ghost var top := i;
      i := SkipSpaces(input, i);
      n := n + if CharAt(input, i) != NUL then 1 else 0;
      i := SkipWord(input, i);
      assert top < i;
    }
    SplitEmptyIffBlank(input, 0);
  }

  /** Second pass: copy the words, in order, into an array of `n` slots. */
  method CopyWords(input: string, n: nat) returns (words: array<string>)
    requires n == |Split(input)|
    ensures fresh(words) && words[..] == Split(input)
  {
    words := new string[n];
    var k := 0;
    var i := 0;
    while CharAt(input, i) != NUL
      invariant i <= |input| && k <= n
      invariant words[..k] + TokensFrom(input, i) == Split(input)
      decreases |input| - i
    {
      ghost var top := i;
      i := SkipSpaces(input, i);
      if CharAt(input, i) != NUL {
        var q := i;
        i := SkipWord(input, i);
        ghost var done := words[..k];
        assert TokensFrom(input, q) == [input[q..i]] + TokensFrom(input, i);
        assert k < n by {
          assert |done + TokensFrom(input, q)| == n;
        }
        words[k] := input[q..i];
        k := k + 1;
        assert words[..k] == done + [input[q..i]];
        AppendAssoc(done, [input[q..i]], TokensFrom(input, i));
      }
      assert top < i;
    }
    assert words[..k] == Split(input);
    assert words[..] == words[..k];
  }

  /** The whole of `string_parser`: the number of words, and the word array,
      which is allocated only when there is at least one word. */
  method StringParser(input: string) returns (n: nat, wordArray: array?<string>)
    ensures n == |Split(input)|
    ensures n == 0 <==> wordArray == null
    ensures wordArray != null ==> fresh(wordArray) && wordArray[..] == Split(input)
  {
    n := CountWords(input);
    wordArray := null;
    if n != 0 {
      wordArray := CopyWords(input, n);
    }
  }
}
