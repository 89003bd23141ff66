/** Characters, C strings and decimal numbers as the shell sees them:
    `isspace` in the C locale, the terminating NUL, the whitespace split that
    `string_parser` performs, and the `%d` rendering / digit-string reading used
    by `printf`, `atoi` and `fscanf`. */
module Text {

  /** The terminator of a C string. */
  const NUL: char := '\0'

  /** `isspace` in the "C" locale: space, \t, \n, \v, \f, \r. */
  predicate IsSpace(c: char) {
    c == ' ' || c == '\t' || c == '\n' || c == '\U{B}' || c == '\U{C}' || c == '\r'
  }

  /** A character that belongs to a word: neither whitespace nor the terminator. */
  predicate IsWordChar(c: char) {
    c != NUL && !IsSpace(c)
  }

  /** A token: a non-empty run of word characters. */
  predicate IsToken(t: string) {
    |t| > 0 && forall k :: 0 <= k < |t| ==> IsWordChar(t[k])
  }

  /** `*p` on the buffer `s`: reading past the last character reads the terminator. */
  function CharAt(s: string, i: nat): char {
    if i < |s| then s[i] else NUL
  }

  /** The position of the first terminator at or after `i` (or |s| when the
      buffer holds none): the end of the C string as seen from `i`. */
  function Terminator(s: string, i: nat): (e: nat)
    ensures i <= |s| ==> i <= e <= |s|
    ensures i > |s| ==> e == i
    ensures CharAt(s, e) == NUL
    ensures forall k :: i <= k < e ==> s[k] != NUL
    decreases |s| - i
  {
    if CharAt(s, i) == NUL then i else Terminator(s, i + 1)
  }

  /** The end of the word that starts at `i`: the first position at or after
      `i` that holds whitespace or the terminator. */
  function WordEnd(s: string, i: nat): (j: nat)
    ensures i <= j
    ensures j > i ==> j <= |s|
    ensures !IsWordChar(CharAt(s, j))
    ensures forall k :: i <= k < j ==> IsWordChar(s[k])
    decreases |s| - i
  {
    if IsWordChar(CharAt(s, i)) then WordEnd(s, i + 1) else i
  }

  /** The maximal runs of word characters of the C string in `s`, from position
      `i` on, in input order. */
  function TokensFrom(s: string, i: nat): seq<string>
    decreases |s| - i
  {
    var c := CharAt(s, i);
    if c == NUL then []
    else if IsSpace(c) then TokensFrom(s, i + 1)
    else [s[i..WordEnd(s, i)]] + TokensFrom(s, WordEnd(s, i))
  }

  /** The words of a C string: what `string_parser` stores in `word_array`. */
  function Split(s: string): seq<string> {
    TokensFrom(s, 0)
  }

  /** Reference definition: the word characters of the C string in `s`, from
      position `i` on, in order, with all whitespace dropped. */
  function Squeeze(s: string, i: nat): seq<char>
    decreases |s| - i
  {
    var c := CharAt(s, i);
    if c == NUL then []
    else if IsSpace(c) then Squeeze(s, i + 1)
    else [c] + Squeeze(s, i + 1)
  }

  /** All strings of `ts`, one after the other. */
  function Concat(ts: seq<string>): string {
    if ts == [] then [] else ts[0] + Concat(ts[1..])
  }

  /** Every word `Split` returns is a token. */
  lemma {:induction false} TokensAreTokens(s: string, i: nat)
    ensures forall t :: t in TokensFrom(s, i) ==> IsToken(t)
    decreases |s| - i
  {
    var c := CharAt(s, i);
    if c == NUL {
    } else if IsSpace(c) {
      TokensAreTokens(s, i + 1);
    } else {
      var j := WordEnd(s, i);
      TokensAreTokens(s, j);
      assert TokensFrom(s, i) == [s[i..j]] + TokensFrom(s, j);
      forall t | t in TokensFrom(s, i) ensures IsToken(t) {
        if t !in TokensFrom(s, j) {
          assert t == s[i..j];
          assert forall k :: 0 <= k < |t| ==> t[k] == s[i + k];
        }
      }
    }
  }

  /** Inside a word, the squeezed text is the rest of the word followed by the
      squeezed text after it. */
  lemma {:induction false} SqueezeWord(s: string, i: nat, j: nat)
    requires i <= |s| && i <= j <= WordEnd(s, i)
    ensures j <= |s|
    ensures Squeeze(s, i) == s[i..j] + Squeeze(s, j)
    decreases j - i
  {
    if i < j {
      assert IsWordChar(s[i]);
      SqueezeWord(s, i + 1, j);
      assert s[i..j] == [s[i]] + s[i + 1..j];
    }
  }

  /** The words, put back together, are exactly the non-whitespace characters
      of the input, in input order. */
  lemma {:induction false} SplitKeepsOrder(s: string, i: nat)
    ensures Concat(TokensFrom(s, i)) == Squeeze(s, i)
    decreases |s| - i
  {
    var c := CharAt(s, i);
    if c == NUL {
    } else if IsSpace(c) {
      SplitKeepsOrder(s, i + 1);
    } else {
      var j := WordEnd(s, i);
      SplitKeepsOrder(s, j);
      SqueezeWord(s, i, j);
      var ts := TokensFrom(s, i);
      assert ts == [s[i..j]] + TokensFrom(s, j);
      assert ts[1..] == TokensFrom(s, j);
    }
  }

  /** No words exactly when the C string holds only whitespace (or nothing). */
  lemma {:induction false} SplitEmptyIffBlank(s: string, i: nat)
    requires i <= |s|
    ensures TokensFrom(s, i) == [] <==> forall k :: i <= k < Terminator(s, i) ==> IsSpace(s[k])
    decreases |s| - i
  {
    var c := CharAt(s, i);
    if c == NUL {
    } else if IsSpace(c) {
      SplitEmptyIffBlank(s, i + 1);
    } else {
      assert !IsSpace(s[i]) && i < Terminator(s, i);
    }
  }

  /** Shifting: the words of `p + r` after the prefix `p` are the words of `r`. */
  lemma {:induction false} WordEndShift(p: string, r: string, k: nat)
    ensures WordEnd(p + r, |p| + k) == |p| + WordEnd(r, k)
    decreases |r| - k
  {
    assert CharAt(p + r, |p| + k) == CharAt(r, k);
    if IsWordChar(CharAt(r, k)) {
      WordEndShift(p, r, k + 1);
    }
  }

  lemma {:induction false} TokensShift(p: string, r: string, k: nat)
    ensures TokensFrom(p + r, |p| + k) == TokensFrom(r, k)
    decreases |r| - k
  {
    var s := p + r;
    assert CharAt(s, |p| + k) == CharAt(r, k);
    var c := CharAt(r, k);
    if c == NUL {
    } else if IsSpace(c) {
      TokensShift(p, r, k + 1);
    } else {
      WordEndShift(p, r, k);
      var j := WordEnd(r, k);
      TokensShift(p, r, j);
      assert s[|p| + k..|p| + j] == r[k..j];
    }
  }

  /** Concatenation regrouped. */
  lemma AppendAssoc<T>(a: seq<T>, b: seq<T>, c: seq<T>)
    ensures a + (b + c) == a + b + c
  {
  }

  /** A token followed by a whitespace character is the first word. */
  lemma SplitCons(t: string, sep: char, rest: string)
    requires IsToken(t) && IsSpace(sep)
    ensures Split(t + [sep] + rest) == [t] + Split(rest)
  {
    var s := t + [sep] + rest;
    TokenWordEnd(t, [sep] + rest, 0);
    assert s == t + ([sep] + rest);
    assert CharAt(s, 0) == t[0];
    assert TokensFrom(s, 0) == [s[0..|t|]] + TokensFrom(s, |t|);
    assert s[0..|t|] == t;
    assert CharAt(s, |t|) == sep;
    assert TokensFrom(s, |t|) == TokensFrom(s, |t| + 1);
    TokensShift(t + [sep], rest, 0);
  }

  /** A token alone is its own single word. */
  lemma SplitToken(t: string)
    requires IsToken(t)
    ensures Split(t) == [t]
  {
    TokenWordEnd(t, [], 0);
    assert t + [] == t;
    assert TokensFrom(t, |t|) == [];
  }

  /** Inside a token followed by whitespace or the end, the word ends where
      the token ends. */
  lemma {:induction false} TokenWordEnd(t: string, rest: string, k: nat)
    requires IsToken(t) && k <= |t|
    requires rest == [] || !IsWordChar(rest[0])
    ensures WordEnd(t + rest, k) == |t|
    decreases |t| - k
  {
    var s := t + rest;
    if k < |t| {
      assert s[k] == t[k];
      TokenWordEnd(t, rest, k + 1);
    } else {
      assert !IsWordChar(CharAt(s, k));
    }
  }

  /** Words separated by single spaces. */
  function Join(ts: seq<string>): string {
    if |ts| == 0 then []
    else if |ts| == 1 then ts[0]
    else ts[0] + " " + Join(ts[1..])
  }

  /** Joining, then splitting, gives back the words, as long as each is a token. */
  lemma {:induction false} SplitJoin(ts: seq<string>)
    requires forall t :: t in ts ==> IsToken(t)
    ensures Split(Join(ts)) == ts
  {
    if |ts| == 0 {
    } else if |ts| == 1 {
      SplitToken(ts[0]);
    } else {
      SplitJoin(ts[1..]);
      SplitCons(ts[0], ' ', Join(ts[1..]));
      assert Join(ts) == ts[0] + [' '] + Join(ts[1..]);
      assert ts == [ts[0]] + ts[1..];
    }
  }

  /** Splitting ignores a trailing whitespace character. */
  lemma SplitSnocSpace(s: string, sep: char)
    requires IsSpace(sep) && NUL !in s
    ensures Split(s + [sep]) == Split(s)
  {
    TokensSnocSpace(s, sep, 0);
  }

  lemma {:induction false} TokensSnocSpace(s: string, sep: char, i: nat)
    requires IsSpace(sep) && NUL !in s
    ensures TokensFrom(s + [sep], i) == TokensFrom(s, i)
    decreases |s| - i
  {
    var u := s + [sep];
    if i < |s| {
      assert u[i] == s[i];
      if IsSpace(s[i]) {
        TokensSnocSpace(s, sep, i + 1);
      } else {
        WordEndSnocSpace(s, sep, i);
        var j := WordEnd(s, i);
        TokensSnocSpace(s, sep, j);
        assert u[i..j] == s[i..j];
      }
    } else if i == |s| {
      assert CharAt(u, i) == sep;
      assert CharAt(u, i + 1) == NUL;
    }
  }

  lemma {:induction false} WordEndSnocSpace(s: string, sep: char, i: nat)
    requires IsSpace(sep) && i <= |s|
    ensures WordEnd(s + [sep], i) == WordEnd(s, i)
    decreases |s| - i
  {
    var u := s + [sep];
    if i < |s| {
      assert u[i] == s[i];
      if IsWordChar(s[i]) {
        WordEndSnocSpace(s, sep, i + 1);
      }
    } else {
      assert CharAt(u, i) == sep;
    }
  }

  // ---------------------------------------------------------------------
  // Decimal numbers: `printf("%d")` on a non-negative value, and `atoi` /
  // `fscanf("%d")` on a string of digits.

  predicate IsDigit(c: char) {
    '0' <= c <= '9'
  }

  /** The all-digits test of `replayCommand` and `dalekCommand`: every
      character passes `isdigit` (vacuously true of the empty string). */
  predicate AllDigits(s: string) {
    forall k :: 0 <= k < |s| ==> IsDigit(s[k])
  }

  /** The value `atoi` gives a string of digits, read left to right. */
  function DigitsValue(s: string): nat
    requires AllDigits(s)
  {
    if s == [] then 0
    else DigitsValue(s[..|s| - 1]) * 10 + (s[|s| - 1] as int - '0' as int)
  }

  function DigitChar(d: nat): (c: char)
    requires d < 10
    ensures IsDigit(c) && c as int - '0' as int == d
  {
    ('0' as int + d) as char
  }

  /** `%d` of a non-negative number: its decimal digits, most significant
      first, without leading zeros. */
  function Itoa(n: nat): (s: string)
    ensures |s| > 0 && AllDigits(s)
    ensures |s| > 1 ==> s[0] != '0'
  {
    if n < 10 then [DigitChar(n)] else Itoa(n / 10) + [DigitChar(n % 10)]
  }

  /** A number read back from its rendering is the number itself. */
  lemma {:induction false} ItoaRoundTrip(n: nat)
    ensures DigitsValue(Itoa(n)) == n
  {
    var s := Itoa(n);
    if n >= 10 {
      ItoaRoundTrip(n / 10);
      assert s[..|s| - 1] == Itoa(n / 10);
    } else {
      assert s[..|s| - 1] == [];
    }
  }

  /** A rendered number is a token (so it survives the whitespace split). */
  lemma ItoaIsToken(n: nat)
    ensures IsToken(Itoa(n))
  {
    var s := Itoa(n);
    forall k | 0 <= k < |s| ensures IsWordChar(s[k]) {
      assert IsDigit(s[k]);
    }
  }

  /** `%d` as read by `fscanf` from a token written by this program: a
      non-empty string of digits. */
  function ParseNat(s: string): (r: Option<nat>)
    ensures r.Some? <==> |s| > 0 && AllDigits(s)
  {
    if |s| > 0 && AllDigits(s) then Some(DigitsValue(s)) else None
  }

  lemma ParseItoa(n: nat)
    ensures ParseNat(Itoa(n)) == Some(n)
  {
    ItoaRoundTrip(n);
  }

  // ---------------------------------------------------------------------
  // `atoi` into the source's 32-bit `int` and `pid_t`, as the GNU C library
  // computes it on a 64-bit platform: `(int) strtol(s, NULL, 10)`, where
  // `strtol` saturates at LONG_MAX and the conversion keeps the low 32 bits.

  const INT_MAX: int := 0x7FFF_FFFF
  const LONG_MAX: int := 0x7FFF_FFFF_FFFF_FFFF

  /** The two's-complement value of the low 32 bits of `n`. */
  function Wrap32(n: int): (w: int)
    ensures -INT_MAX - 1 <= w <= INT_MAX
    ensures (n - w) % 0x1_0000_0000 == 0
    ensures -INT_MAX - 1 <= n <= INT_MAX ==> w == n
  {
    var m := n % 0x1_0000_0000;
    if m > INT_MAX then m - 0x1_0000_0000 else m
  }

  /** `atoi` of a digit string at the width of `int`: the value itself when
      it fits, otherwise a wrapped one. */
  function Atoi(s: string): (v: int)
    requires AllDigits(s)
    ensures -INT_MAX - 1 <= v <= INT_MAX
    ensures DigitsValue(s) <= INT_MAX ==> v == DigitsValue(s)
  {
    Wrap32(if DigitsValue(s) > LONG_MAX then LONG_MAX else DigitsValue(s))
  }

  /** Digit strings just past the 32-bit range: 4294967295 is read as -1 and
      4294967296 as 0. */
  lemma AtoiWraps(s: string)
    requires AllDigits(s)
    ensures DigitsValue(s) == 4294967295 ==> Atoi(s) == -1
    ensures DigitsValue(s) == 4294967296 ==> Atoi(s) == 0
  {
  }

  datatype Option<T> = None | Some(value: T)
}
