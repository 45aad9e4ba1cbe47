/**
 * Character and string helpers shared by the C++, Python and TypeScript readers:
 * whitespace classification, ASCII lower-casing, prefix/suffix tests, trimming and the
 * whitespace tokenizer's specification.
 */
module Text {
  import opened Wrappers

  /** The C library's `isspace` in the "C" locale: space, tab, newline, vertical tab, form feed, carriage return. */
  predicate IsSpace(c: char) {
    c == ' ' || c == '\t' || c == '\n' || c == '\U{000B}' || c == '\U{000C}' || c == '\r'
  }

  /** `tolower` in the "C" locale: maps 'A'..'Z' to 'a'..'z' and leaves every other character alone. */
  function LowerChar(c: char): (d: char)
    ensures 'A' <= c <= 'Z' ==> d as int == c as int + 32
    ensures !('A' <= c <= 'Z') ==> d == c
  {
    if 'A' <= c <= 'Z' then (c as int + 32) as char else c
  }

  /** A string lower-cased character by character, as `std::transform(..., ::tolower)` does. */
  function Lower(s: string): (t: string)
    ensures |t| == |s|
    ensures forall i :: 0 <= i < |s| ==> t[i] == LowerChar(s[i])
  {
    seq(|s|, i requires 0 <= i < |s| => LowerChar(s[i]))
  }

  /** No upper-case ASCII letter occurs in `s`. */
  predicate IsLowerCase(s: string) {
    forall i :: 0 <= i < |s| ==> !('A' <= s[i] <= 'Z')
  }

  predicate StartsWith(s: string, prefix: string) {
    |prefix| <= |s| && s[..|prefix|] == prefix
  }

  predicate EndsWith(s: string, suffix: string) {
    |suffix| <= |s| && s[|s| - |suffix|..] == suffix
  }

  /**
   * The character at index 0, or NUL for the empty string: what `std::string::operator[](0)`
   * yields on an empty string.
   */
  function FirstChar(s: string): char {
    if |s| > 0 then s[0] else '\0'
  }

  /** Python's and JavaScript's `strip()`/`trim()` restricted to the C whitespace set. */
  function Strip(s: string): (t: string)
    ensures |t| <= |s|
    ensures t == [] || (!IsSpace(t[0]) && !IsSpace(t[|t| - 1]))
    decreases |s|
  {
    if s == [] then []
    else if IsSpace(s[0]) then Strip(s[1..])
    else if IsSpace(s[|s| - 1]) then Strip(s[..|s| - 1])
    else s
  }

  /** A string that neither starts nor ends with whitespace is its own strip. */
  lemma StripTrimmed(s: string)
    requires s != [] && !IsSpace(s[0]) && !IsSpace(s[|s| - 1])
    ensures Strip(s) == s
  {
  }

  /** Every character of `s` is whitespace. */
  predicate IsBlank(s: string) {
    forall i :: 0 <= i < |s| ==> IsSpace(s[i])
  }

  /** `s[i..j]` is `s` without some whitespace at its start and some at its end. */
  predicate SpaceAround(s: string, i: int, j: int) {
    && 0 <= i <= j <= |s|
    && (forall k :: 0 <= k < i ==> IsSpace(s[k]))
    && (forall k :: j <= k < |s| ==> IsSpace(s[k]))
  }

  /**
   * Stripping removes whitespace at the two ends and nothing else: the result is a slice of the
   * input with only whitespace before and after it. With the ends of the result not being
   * whitespace, this determines the result.
   */
  lemma {:induction false} StripIsSlice(s: string)
    ensures exists i, j :: SpaceAround(s, i, j) && Strip(s) == s[i..j]
    decreases |s|
  {
    if s == [] {
      assert SpaceAround(s, 0, 0) && Strip(s) == s[0..0];
    } else if IsSpace(s[0]) {
      StripIsSlice(s[1..]);
      var i, j :| SpaceAround(s[1..], i, j) && Strip(s[1..]) == s[1..][i..j];
      SpaceAroundFront(s, i, j);
    } else if IsSpace(s[|s| - 1]) {
      StripIsSlice(s[..|s| - 1]);
      var i, j :| SpaceAround(s[..|s| - 1], i, j) && Strip(s[..|s| - 1]) == s[..|s| - 1][i..j];
      SpaceAroundBack(s, i, j);
    } else {
      assert SpaceAround(s, 0, |s|) && Strip(s) == s[0..|s|];
    }
  }

  lemma SpaceAroundFront(s: string, i: int, j: int)
    requires s != [] && IsSpace(s[0]) && SpaceAround(s[1..], i, j)
    ensures SpaceAround(s, i + 1, j + 1) && s[1..][i..j] == s[i + 1..j + 1]
  {
    assert forall k :: 1 <= k < |s| ==> s[k] == s[1..][k - 1];
  }

  lemma SpaceAroundBack(s: string, i: int, j: int)
    requires s != [] && IsSpace(s[|s| - 1]) && SpaceAround(s[..|s| - 1], i, j)
    ensures SpaceAround(s, i, j) && s[..|s| - 1][i..j] == s[i..j]
  {
    assert forall k :: 0 <= k < |s| - 1 ==> s[k] == s[..|s| - 1][k];
  }

  /** The strip is empty exactly for a blank input. */
  lemma {:induction false} StripEmptyIffBlank(s: string)
    ensures Strip(s) == [] <==> IsBlank(s)
    decreases |s|
  {
    if s != [] {
      if IsSpace(s[0]) {
        StripEmptyIffBlank(s[1..]);
        assert IsBlank(s) <==> IsBlank(s[1..]) by {
          assert forall k :: 1 <= k < |s| ==> s[k] == s[1..][k - 1];
        }
      } else if IsSpace(s[|s| - 1]) {
        StripEmptyIffBlank(s[..|s| - 1]);
        assert IsBlank(s) <==> IsBlank(s[..|s| - 1]) by {
          assert forall k :: 0 <= k < |s| - 1 ==> s[k] == s[..|s| - 1][k];
        }
      }
    }
  }

  /** A non-empty run of non-whitespace characters. */
  predicate IsWord(t: string) {
    |t| > 0 && forall i :: 0 <= i < |t| ==> !IsSpace(t[i])
  }

  /** The length of the run of non-whitespace characters that starts `s`. */
  function WordLen(s: string): (n: nat)
    ensures n <= |s|
    ensures forall i :: 0 <= i < n ==> !IsSpace(s[i])
    ensures n == |s| || IsSpace(s[n])
  {
    if s == [] || IsSpace(s[0]) then 0 else 1 + WordLen(s[1..])
  }

  /** The three properties of `WordLen` determine it. */
  lemma {:induction false} WordLenIs(s: string, n: nat)
    requires n <= |s|
    requires forall i :: 0 <= i < n ==> !IsSpace(s[i])
    requires n == |s| || IsSpace(s[n])
    ensures WordLen(s) == n
  {
    if n > 0 {
      WordLenIs(s[1..], n - 1);
    }
  }

  /**
   * The maximal runs of non-whitespace characters of `s`, left to right: the
   * specification of the C++ reader's tokenizer and of Python's `str.split()`.
   */
  function Tokens(s: string): seq<string>
    decreases |s|
  {
    if s == [] then []
    else if IsSpace(s[0]) then Tokens(s[1..])
    else
      var n := WordLen(s);
      [s[..n]] + Tokens(s[n..])
  }

  /** `s` with its whitespace characters removed. */
  function RemoveSpaces(s: string): string {
    if s == [] then []
    else if IsSpace(s[0]) then RemoveSpaces(s[1..])
    else [s[0]] + RemoveSpaces(s[1..])
  }

  /** The concatenation of a list of strings. */
  function Concat(ts: seq<string>): string {
    if ts == [] then [] else ts[0] + Concat(ts[1..])
  }

  lemma {:induction false} ConcatAppend(a: seq<string>, b: seq<string>)
    ensures Concat(a + b) == Concat(a) + Concat(b)
  {
    if a == [] {
      assert a + b == b;
    } else {
      assert (a + b)[1..] == a[1..] + b;
      ConcatAppend(a[1..], b);
    }
  }

  /** No token is empty and no token contains whitespace. */
  lemma {:induction false} TokensAreWords(s: string)
    ensures forall k :: 0 <= k < |Tokens(s)| ==> IsWord(Tokens(s)[k])
    decreases |s|
  {
    if s == [] {
    } else if IsSpace(s[0]) {
      TokensAreWords(s[1..]);
    } else {
      var n := WordLen(s);
      TokensAreWords(s[n..]);
    }
  }

  /** The tokens, concatenated, give back the input with its whitespace removed. */
  lemma {:induction false} TokensConcat(s: string)
    ensures Concat(Tokens(s)) == RemoveSpaces(s)
    decreases |s|
  {
    if s == [] {
    } else if IsSpace(s[0]) {
      TokensConcat(s[1..]);
    } else {
      var n := WordLen(s);
      TokensConcat(s[n..]);
      WordRemoveSpaces(s, n);
      assert Tokens(s) == [s[..n]] + Tokens(s[n..]);
      assert Concat(Tokens(s)) == s[..n] + Concat(Tokens(s[n..]));
    }
  }

  /** Removing whitespace from a string that starts with `n` non-whitespace characters keeps them. */
  lemma {:induction false} WordRemoveSpaces(s: string, n: nat)
    requires n <= |s|
    requires forall i :: 0 <= i < n ==> !IsSpace(s[i])
    ensures RemoveSpaces(s) == s[..n] + RemoveSpaces(s[n..])
  {
    if n > 0 {
      WordRemoveSpaces(s[1..], n - 1);
      assert s[1..][..n - 1] == s[1..n];
      assert s[1..][n - 1..] == s[n..];
      assert s[..n] == [s[0]] + s[1..n];
    }
  }

  /** A line with no non-whitespace character has no token, and only such a line. */
  lemma {:induction false} TokensEmptyIffBlank(s: string)
    ensures Tokens(s) == [] <==> IsBlank(s)
    decreases |s|
  {
    if s != [] {
      TokensEmptyIffBlank(s[1..]);
      assert IsBlank(s) <==> IsSpace(s[0]) && IsBlank(s[1..]);
    }
  }

  /** A whitespace character separates tokens: splitting at it splits the token list. */
  lemma {:induction false} TokensSplitAtSpace(a: string, c: char, b: string)
    requires IsSpace(c)
    ensures Tokens(a + [c] + b) == Tokens(a) + Tokens(b)
    decreases |a|
  {
    if a == [] {
      assert (a + [c] + b)[1..] == b;
    } else if IsSpace(a[0]) {
      TokensSplitAtSpace(a[1..], c, b);
      SplitAfterLeadingSpace(a, c, b);
    } else {
      if WordLen(a) < |a| {
        TokensSplitAtSpace(a[WordLen(a)..], c, b);
      }
      SplitAfterWord(a, c, b);
    }
  }

  lemma SplitAfterLeadingSpace(a: string, c: char, b: string)
    requires IsSpace(c) && a != [] && IsSpace(a[0])
    requires Tokens(a[1..] + [c] + b) == Tokens(a[1..]) + Tokens(b)
    ensures Tokens(a + [c] + b) == Tokens(a) + Tokens(b)
  {
    assert (a + [c] + b)[1..] == a[1..] + [c] + b;
  }

  lemma SplitAfterWord(a: string, c: char, b: string)
    requires IsSpace(c) && a != [] && !IsSpace(a[0])
    requires WordLen(a) < |a| ==> Tokens(a[WordLen(a)..] + [c] + b) == Tokens(a[WordLen(a)..]) + Tokens(b)
    ensures Tokens(a + [c] + b) == Tokens(a) + Tokens(b)
  {
    var s := a + [c] + b;
    var n := WordLen(a);
    WordLenExtend(a, [c] + b);
    assert s == a + ([c] + b);
    assert WordLen(s) == n;
    assert s[..n] == a[..n];
    if n == |a| {
      assert s[n..] == [c] + b;
      assert a[n..] == [];
      assert ([c] + b)[1..] == b;
      assert Tokens(a) == [a[..n]];
    } else {
      assert s[n..] == a[n..] + [c] + b;
      AppendAssociative([a[..n]], Tokens(a[n..]), Tokens(b));
    }
  }

  /** A leading word is not lengthened by appending text that starts with whitespace. */
  lemma {:induction false} WordLenExtend(a: string, r: string)
    requires WordLen(a) < |a| || (r != [] && IsSpace(r[0]))
    ensures WordLen(a + r) == WordLen(a)
  {
    if a == [] {
    } else if IsSpace(a[0]) {
    } else {
      assert (a + r)[1..] == a[1..] + r;
      WordLenExtend(a[1..], r);
    }
  }

  /** A whitespace character at `pos` contributes no token. */
  lemma TokensSkipSpace(s: string, pos: nat)
    requires pos < |s| && IsSpace(s[pos])
    ensures Tokens(s[pos..]) == Tokens(s[pos + 1..])
  {
    assert s[pos..][1..] == s[pos + 1..];
  }

  /** A maximal non-whitespace run `s[start..end]` is the next token. */
  lemma TokensAtWord(s: string, start: nat, end: nat)
    requires start < end <= |s|
    requires forall j :: start <= j < end ==> !IsSpace(s[j])
    requires end == |s| || IsSpace(s[end])
    ensures Tokens(s[start..]) == [s[start..end]] + Tokens(s[end..])
  {
    var rest := s[start..];
    WordLenIs(rest, end - start);
    assert rest[..end - start] == s[start..end];
    assert rest[end - start..] == s[end..];
  }

  /** The abstract number conversions of a language: `None` is a conversion that throws. */
  datatype NumberSyntax = NumberSyntax(toReal: string -> Option<real>, toInt: string -> Option<int>)

  /**
   * `list(map(float, tokens))`: every token converted, in order, or `None` when a conversion
   * throws.
   */
  function Reals(num: NumberSyntax, tokens: seq<string>): (r: Option<seq<real>>)
    ensures r.Some? <==> forall k :: 0 <= k < |tokens| ==> num.toReal(tokens[k]).Some?
    ensures r.Some? ==> |r.value| == |tokens|
    ensures r.Some? ==> forall k :: 0 <= k < |tokens| ==> num.toReal(tokens[k]) == Some(r.value[k])
    decreases |tokens|
  {
    if tokens == [] then Some([])
    else
      var init := Reals(num, tokens[..|tokens| - 1]);
      var last := num.toReal(tokens[|tokens| - 1]);
      if init.None? || last.None? then None else Some(init.value + [last.value])
  }

  /** `[line.strip() for line in lines if line.strip()]`: the stripped non-blank lines, in order. */
  function ContentLines(lines: seq<string>): (cs: seq<string>)
    ensures |cs| <= |lines|
    ensures forall k :: 0 <= k < |cs| ==> cs[k] != [] && Strip(cs[k]) == cs[k]
    decreases |lines|
  {
    if lines == [] then []
    else
      var last := Strip(lines[|lines| - 1]);
      ContentLines(lines[..|lines| - 1]) + (if last == [] then [] else [last])
  }

  /** Extending a window of lines by one line adds that line, stripped, unless it is blank. */
  lemma ContentLinesStep(lines: seq<string>, s: nat, e: nat)
    requires s < e <= |lines|
    ensures Strip(lines[e - 1]) == [] ==> ContentLines(lines[s..e]) == ContentLines(lines[s..e - 1])
    ensures Strip(lines[e - 1]) != [] ==>
      ContentLines(lines[s..e]) == ContentLines(lines[s..e - 1]) + [Strip(lines[e - 1])]
  {
    assert lines[s..e][..e - s - 1] == lines[s..e - 1];
    assert lines[s..e][e - s - 1] == lines[e - 1];
    if Strip(lines[e - 1]) == [] {
      assert ContentLines(lines[s..e - 1]) + [] == ContentLines(lines[s..e - 1]);
    }
  }

  /** Filtering distributes over concatenation. */
  lemma {:induction false} ContentLinesAppend(a: seq<string>, b: seq<string>)
    ensures ContentLines(a + b) == ContentLines(a) + ContentLines(b)
    decreases |b|
  {
    if b == [] {
      assert a + b == a;
    } else {
      var init := b[..|b| - 1];
      ContentLinesAppend(a, init);
      assert (a + b)[..|a + b| - 1] == a + init;
      assert (a + b)[|a + b| - 1] == b[|b| - 1];
    }
  }
}
