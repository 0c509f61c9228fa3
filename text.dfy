/**
 * The few pieces of Python string handling the client code relies on:
 * `str.isspace`, `str.strip()` and `str.split()[0]`.
 */
module Text {
  import opened Wrappers

  /** Python's `str.isspace` for one character: the separators of `split()` and `strip()`. */
  predicate IsSpace(c: char) {
    || c == ' '
    || ('\t' <= c <= '\r')
    || ('\U{1C}' <= c <= '\U{1F}')
    || c == '\U{85}' || c == '\U{A0}' || c == '\U{1680}'
    || ('\U{2000}' <= c <= '\U{200A}')
    || c == '\U{2028}' || c == '\U{2029}' || c == '\U{202F}' || c == '\U{205F}' || c == '\U{3000}'
  }

  predicate AllSpace(s: string) {
    forall k | 0 <= k < |s| :: IsSpace(s[k])
  }

  predicate NoSpace(s: string) {
    forall k | 0 <= k < |s| :: !IsSpace(s[k])
  }

  /** The length of the whitespace run that starts `s`. */
  function LeadingSpaces(s: string): (n: nat)
    ensures n <= |s| && AllSpace(s[..n])
    ensures n < |s| ==> !IsSpace(s[n])
  {
    if s != [] && IsSpace(s[0]) then
      var n := 1 + LeadingSpaces(s[1..]);
      assert s[..n] == [s[0]] + s[1..][..n - 1];
      n
    else 0
  }

  /** Where the whitespace run that ends `s` begins. */
  function TrailingStart(s: string): (m: nat)
    ensures m <= |s| && AllSpace(s[m..])
    ensures m > 0 ==> !IsSpace(s[m - 1])
  {
    if s != [] && IsSpace(s[|s| - 1]) then
      var m := TrailingStart(s[..|s| - 1]);
      assert s[m..] == s[..|s| - 1][m..] + [s[|s| - 1]];
      m
    else |s|
  }

  /**
   * Python's `s.strip()`: `s` without its leading and trailing whitespace.
   * The result neither starts nor ends with whitespace, and is empty exactly
   * when `s` is all whitespace.
   */
  function Strip(s: string): (r: string)
    ensures r != [] ==> !IsSpace(r[0]) && !IsSpace(r[|r| - 1])
    ensures r == [] <==> AllSpace(s)
  {
    var i := LeadingSpaces(s);
    var m := TrailingStart(s[i..]);
    assert m > 0 ==> s[i..][m - 1] == s[i + m - 1];
    assert AllSpace(s) ==> m == 0;
    assert m == 0 ==> AllSpace(s) by {
      if m == 0 {
        assert s == s[..i] + s[i..];
      }
    }
    s[i..i + m]
  }

  /** What `strip()` cuts off around its result is whitespace: the result is the middle of `s`. */
  lemma StripSlice(s: string)
    ensures exists i, j :: 0 <= i <= j <= |s| && Strip(s) == s[i..j] && AllSpace(s[..i]) && AllSpace(s[j..])
  {
    var i := LeadingSpaces(s);
    var m := TrailingStart(s[i..]);
    assert s[i..][m..] == s[i + m..];
    assert Strip(s) == s[i..i + m];
  }

  /** Stripping twice is stripping once. */
  lemma StripIdempotent(s: string)
    ensures Strip(Strip(s)) == Strip(s)
  {
    var r := Strip(s);
    if r != [] {
      assert LeadingSpaces(r) == 0;
      assert r[0..] == r;
      assert TrailingStart(r) == |r|;
      assert r[..|r|] == r;
    }
  }

  /** The run of non-whitespace that starts `s`. */
  function Word(s: string): string {
    if s == [] || IsSpace(s[0]) then [] else [s[0]] + Word(s[1..])
  }

  /** `Word(s)` is the longest prefix of `s` holding no whitespace. */
  lemma {:induction false} WordFacts(s: string)
    ensures |Word(s)| <= |s| && Word(s) == s[..|Word(s)|] && NoSpace(Word(s))
    ensures |Word(s)| < |s| ==> IsSpace(s[|Word(s)|])
    ensures s != [] && !IsSpace(s[0]) ==> Word(s) != []
  {
    if s != [] && !IsSpace(s[0]) {
      WordFacts(s[1..]);
      var w := Word(s[1..]);
      assert Word(s) == [s[0]] + w;
      assert s[..|w| + 1] == [s[0]] + s[1..][..|w|];
      if |w| + 1 < |s| {
        assert s[|w| + 1] == s[1..][|w|];
      }
    }
  }

  /**
   * Python's `s.split()[0]`: the first whitespace-delimited word of `s`, or
   * None where Python raises IndexError because `s` holds no word at all.
   */
  function FirstWord(s: string): Option<string> {
    if s == [] then None
    else if IsSpace(s[0]) then FirstWord(s[1..])
    else Some(Word(s))
  }

  /** There is no first word exactly when `s` is all whitespace. */
  lemma {:induction false} FirstWordNone(s: string)
    ensures FirstWord(s).None? <==> AllSpace(s)
  {
    if s != [] {
      if IsSpace(s[0]) {
        FirstWordNone(s[1..]);
        assert AllSpace(s) <==> AllSpace(s[1..]) by {
          if AllSpace(s[1..]) {
            forall k | 0 <= k < |s| ensures IsSpace(s[k]) {
              if k > 0 {
                assert s[k] == s[1..][k - 1];
              }
            }
          }
        }
      }
    }
  }

  /** The first word is the word that starts after the leading whitespace. */
  lemma {:induction false} FirstWordAt(s: string)
    ensures var i := LeadingSpaces(s);
            FirstWord(s) == if i == |s| then None else Some(Word(s[i..]))
  {
    if s != [] && IsSpace(s[0]) {
      FirstWordAt(s[1..]);
      assert s[1..][LeadingSpaces(s[1..])..] == s[LeadingSpaces(s)..];
    } else if s != [] {
      assert s[0..] == s;
    }
  }

  /**
   * A first word is a non-empty run of non-whitespace that only whitespace
   * precedes and that ends at whitespace or at the end of `s`.
   */
  lemma FirstWordSome(s: string)
    requires FirstWord(s).Some?
    ensures exists i, j :: 0 <= i < j <= |s| && FirstWord(s).value == s[i..j]
              && AllSpace(s[..i]) && NoSpace(s[i..j]) && (j == |s| || IsSpace(s[j]))
  {
    FirstWordAt(s);
    var i := LeadingSpaces(s);
    WordFacts(s[i..]);
    var w := |Word(s[i..])|;
    SuffixPrefix(s, i, w);
  }

  lemma SuffixPrefix(s: string, i: nat, w: nat)
    requires i + w <= |s|
    ensures s[i..][..w] == s[i..i + w]
    ensures i + w < |s| ==> s[i..][w] == s[i + w]
  {
  }
}
