/**
 * The two string services of Rust's standard library the program relies on:
 * `str::to_lowercase` (restricted to what can matter for matching the unit
 * tokens) and `str::split_whitespace`.
 */
module Text {

  /** U+212A KELVIN SIGN, whose lowercase form is the ASCII letter `k`. */
  const KelvinSign: char := '\U{212A}'

  /** The Unicode White_Space property, which `char::is_whitespace` tests. */
  predicate IsWhitespace(c: char) {
    || ('\t' <= c <= '\r')
    || c == ' '
    || c == '\U{85}'
    || c == '\U{A0}'
    || c == '\U{1680}'
    || ('\U{2000}' <= c <= '\U{200A}')
    || c == '\U{2028}'
    || c == '\U{2029}'
    || c == '\U{202F}'
    || c == '\U{205F}'
    || c == '\U{3000}'
  }

  /**
   * Lowercase mapping of one character, exact for every ASCII character and
   * for the Kelvin sign; every other non-ASCII character is left as it is
   * (its true lowercase form contains a non-ASCII character too).
   */
  function LowerChar(c: char): (r: char)
    ensures !('A' <= r <= 'Z')
    ensures 'A' <= c <= 'Z' ==> r as int == c as int + 32
    ensures c == KelvinSign ==> r == 'k'
    ensures r != c ==> 'A' <= c <= 'Z' || c == KelvinSign
    // the characters that lowercase to an ASCII letter: itself, its capital, and the Kelvin sign for `k`
    ensures 'a' <= r <= 'z' ==>
              c == r || c as int == r as int - 32 || (r == 'k' && c == KelvinSign)
  {
    if 'A' <= c <= 'Z' then (c as int + 32) as char
    else if c == KelvinSign then 'k'
    else c
  }

  /** `str::to_lowercase`, character by character. */
  function Lower(s: string): (r: string)
    ensures |r| == |s|
    ensures forall i :: 0 <= i < |s| ==> r[i] == LowerChar(s[i])
  {
    if s == [] then [] else [LowerChar(s[0])] + Lower(s[1..])
  }

  /** Lowercasing a lowercased string changes nothing. */
  lemma LowerIdempotent(s: string)
    ensures Lower(Lower(s)) == Lower(s)
  {
  }

  /** A string with no capital letter and no Kelvin sign is its own lowercase form. */
  lemma LowerOfLowercase(s: string)
    requires forall i :: 0 <= i < |s| ==> !('A' <= s[i] <= 'Z') && s[i] != KelvinSign
    ensures Lower(s) == s
  {
  }

  /** A token `split_whitespace` can yield: non-empty, with no whitespace in it. */
  predicate IsToken(w: string) {
    |w| > 0 && forall i :: 0 <= i < |w| ==> !IsWhitespace(w[i])
  }

  /** `s` without its leading whitespace. */
  function SkipWhitespace(s: string): (r: string)
    ensures |r| <= |s|
    ensures r == [] || !IsWhitespace(r[0])
    ensures forall i :: 0 <= i < |s| - |r| ==> IsWhitespace(s[i])
  {
    if s != [] && IsWhitespace(s[0]) then SkipWhitespace(s[1..]) else s
  }

  /** Length of the run of non-whitespace characters that starts `s`. */
  function WordLength(s: string): (n: nat)
    ensures n <= |s|
    ensures forall i :: 0 <= i < n ==> !IsWhitespace(s[i])
    ensures n == |s| || IsWhitespace(s[n])
  {
    if s == [] || IsWhitespace(s[0]) then 0 else 1 + WordLength(s[1..])
  }

  /**
   * `str::split_whitespace`: the maximal runs of non-whitespace characters
   * of `s`, in order.
   */
  function Words(s: string): (r: seq<string>)
    ensures forall k :: 0 <= k < |r| ==> IsToken(r[k])
    decreases |s|
  {
    var t := SkipWhitespace(s);
    if t == [] then []
    else
      var n := WordLength(t);
      [t[..n]] + Words(t[n..])
  }

  /** The tokens separated by one space each; `Words` undoes it (see `WordsOfJoin`). */
  function Join(ts: seq<string>): string {
    if ts == [] then []
    else if |ts| == 1 then ts[0]
    else ts[0] + " " + Join(ts[1..])
  }

  /** All non-whitespace characters of `s`, in order. */
  function NonWhitespace(s: string): string {
    if s == [] then []
    else (if IsWhitespace(s[0]) then [] else [s[0]]) + NonWhitespace(s[1..])
  }

  /** The tokens written one after the other. */
  function Concat(ts: seq<string>): string {
    if ts == [] then [] else ts[0] + Concat(ts[1..])
  }

  /** Leading whitespace does not change the split. */
  lemma WordsSkipsLeadingWhitespace(s: string)
    requires s != [] && IsWhitespace(s[0])
    ensures Words(s) == Words(s[1..])
  {
  }

  /** A token followed by the end or by whitespace is read as one word. */
  lemma {:induction false} WordLengthOfToken(w: string, rest: string)
    requires IsToken(w)
    requires rest == [] || IsWhitespace(rest[0])
    ensures WordLength(w + rest) == |w|
    decreases |w|
  {
    if |w| > 1 {
      assert (w + rest)[1..] == w[1..] + rest;
      WordLengthOfToken(w[1..], rest);
    } else {
      assert (w + rest)[1..] == rest;
    }
  }

  /** A token at the front, ended by the end or by whitespace, is the first word. */
  lemma WordsOfTokenThen(w: string, rest: string)
    requires IsToken(w)
    requires rest == [] || IsWhitespace(rest[0])
    ensures Words(w + rest) == [w] + Words(rest)
  {
    var s := w + rest;
    assert SkipWhitespace(s) == s;
    WordLengthOfToken(w, rest);
    assert s[..|w|] == w;
    assert s[|w|..] == rest;
  }

  /**
   * Splitting tokens that were joined with single spaces gives them back:
   * `Words` recovers exactly what `Join` wrote.
   */
  lemma {:induction false} WordsOfJoin(ts: seq<string>)
    requires forall k :: 0 <= k < |ts| ==> IsToken(ts[k])
    ensures Words(Join(ts)) == ts
    decreases |ts|
  {
    if |ts| == 1 {
      WordsOfTokenThen(ts[0], []);
      assert ts[0] + [] == ts[0];
    } else if |ts| > 1 {
      var rest := " " + Join(ts[1..]);
      calc {
        Words(Join(ts));
        { assert Join(ts) == ts[0] + rest; }
        Words(ts[0] + rest);
        { WordsOfTokenThen(ts[0], rest); }
        [ts[0]] + Words(rest);
        { WordsSkipsLeadingWhitespace(rest); assert rest[1..] == Join(ts[1..]); }
        [ts[0]] + Words(Join(ts[1..]));
        { WordsOfJoin(ts[1..]); }
        [ts[0]] + ts[1..];
      }
    }
  }

  /** Skipping leading whitespace loses no text. */
  lemma {:induction false} NonWhitespaceOfSkip(s: string)
    ensures NonWhitespace(SkipWhitespace(s)) == NonWhitespace(s)
    decreases |s|
  {
    if s != [] && IsWhitespace(s[0]) {
      NonWhitespaceOfSkip(s[1..]);
    }
  }

  /** Text written before a string with no whitespace in it is kept whole. */
  lemma {:induction false} NonWhitespaceOfPrefix(w: string, rest: string)
    requires forall i :: 0 <= i < |w| ==> !IsWhitespace(w[i])
    ensures NonWhitespace(w + rest) == w + NonWhitespace(rest)
    decreases |w|
  {
    if w == [] {
      assert w + rest == rest;
    } else {
      assert (w + rest)[1..] == w[1..] + rest;
      NonWhitespaceOfPrefix(w[1..], rest);
      assert w == [w[0]] + w[1..];
    }
  }

  /**
   * The split loses only whitespace: its tokens written back to back are
   * exactly the non-whitespace characters of `s`, in order.
   */
  lemma {:induction false} WordsKeepAllText(s: string)
    ensures Concat(Words(s)) == NonWhitespace(s)
    decreases |s|
  {
    var t := SkipWhitespace(s);
    NonWhitespaceOfSkip(s);
    if t != [] {
      var n := WordLength(t);
      var ws := Words(s);
      assert ws == [t[..n]] + Words(t[n..]);
      assert ws[0] == t[..n] && ws[1..] == Words(t[n..]);
      assert Concat(ws) == t[..n] + Concat(Words(t[n..]));
      assert t == t[..n] + t[n..];
      NonWhitespaceOfPrefix(t[..n], t[n..]);
      WordsKeepAllText(t[n..]);
    }
  }

  lemma WordsAfterWhitespace(s: string, i: nat)
    requires i < |s| && IsWhitespace(s[i])
    ensures Words(s[i..]) == Words(s[i + 1..])
  {
    WordsSkipsLeadingWhitespace(s[i..]);
    assert s[i..][1..] == s[i + 1..];
  }

  lemma WordsAtToken(s: string, i: nat, j: nat)
    requires i < j <= |s|
    requires forall m :: i <= m < j ==> !IsWhitespace(s[m])
    requires j == |s| || IsWhitespace(s[j])
    ensures Words(s[i..]) == [s[i..j]] + Words(s[j..])
  {
    assert s[i..] == s[i..j] + s[j..];
    WordsOfTokenThen(s[i..j], s[j..]);
  }

  /**
   * `split_whitespace(..).collect()`, as a left-to-right scan that skips
   * whitespace and cuts out one word at a time.
   */
  method SplitWhitespace(s: string) returns (tokens: seq<string>)
    ensures tokens == Words(s)
    ensures forall k :: 0 <= k < |tokens| ==> IsToken(tokens[k])
  {
    tokens := [];
    var i := 0;
    while i < |s|
      invariant 0 <= i <= |s|
      invariant tokens + Words(s[i..]) == Words(s)
    {
      if IsWhitespace(s[i]) {
        WordsAfterWhitespace(s, i);
        i := i + 1;
      } else {
        var j := i + 1;
        while j < |s| && !IsWhitespace(s[j])
          invariant i < j <= |s|
          invariant forall m :: i <= m < j ==> !IsWhitespace(s[m])
        {
          j := j + 1;
        }
        WordsAtToken(s, i, j);
        assert tokens + Words(s[i..]) == (tokens + [s[i..j]]) + Words(s[j..]);
        tokens := tokens + [s[i..j]];
        i := j;
      }
    }
    assert s[|s|..] == [];
  }
}
