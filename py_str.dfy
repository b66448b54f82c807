/**
 * The few Python string built-ins the record extractor relies on:
 * `str.split()` with no argument, `" ".join(parts)` and `s.split(',')[0]`.
 */
module PyStr {

  /** Python's `str.isspace()` for one character: the characters `str.split()` splits on. */
  predicate IsWhitespace(c: char) {
    || ('\t' <= c <= '\r')
    || ('\U{1C}' <= c <= ' ')
    || c == '\U{85}' || c == '\U{A0}' || c == '\U{1680}'
    || ('\U{2000}' <= c <= '\U{200A}')
    || c == '\U{2028}' || c == '\U{2029}' || c == '\U{202F}' || c == '\U{205F}' || c == '\U{3000}'
  }

  /** A string holding whitespace only (possibly none at all). */
  predicate IsBlank(s: string) {
    forall i :: 0 <= i < |s| ==> IsWhitespace(s[i])
  }

  /** A word as `str.split()` produces it: non-empty, without whitespace. */
  predicate IsToken(t: string) {
    t != [] && forall i :: 0 <= i < |t| ==> !IsWhitespace(t[i])
  }

  /** The length of the run of non-whitespace characters that starts `s`. */
  function WordEnd(s: string): (n: nat)
    ensures n <= |s|
    ensures forall i :: 0 <= i < n ==> !IsWhitespace(s[i])
    ensures n < |s| ==> IsWhitespace(s[n])
  {
    if s == [] || IsWhitespace(s[0]) then 0 else 1 + WordEnd(s[1..])
  }

  /**
   * Python's `s.split()`: the maximal runs of non-whitespace characters of `s`,
   * in order; leading, trailing and repeated whitespace yield no empty words.
   */
  function Split(s: string): (words: seq<string>)
    ensures forall k :: 0 <= k < |words| ==> IsToken(words[k])
    decreases |s|
  {
    if s == [] then []
    else if IsWhitespace(s[0]) then Split(s[1..])
    else
      var n := WordEnd(s);
      [s[..n]] + Split(s[n..])
  }

  /** Python's `sep.join(parts)`: the parts in order, with `sep` between neighbours. */
  function Join(sep: string, parts: seq<string>): string {
    if parts == [] then ""
    else if |parts| == 1 then parts[0]
    else parts[0] + sep + Join(sep, parts[1..])
  }

  /**
   * What `sep.join(parts)` looks like: the first part starts it, and it is as
   * long as all the parts together plus one separator per gap between them.
   */
  lemma {:induction false} JoinShape(sep: string, parts: seq<string>)
    requires parts != []
    ensures parts[0] <= Join(sep, parts)
    ensures |Join(sep, parts)| == |Concat(parts)| + |sep| * (|parts| - 1)
    decreases |parts|
  {
    if |parts| > 1 {
      JoinShape(sep, parts[1..]);
      assert Join(sep, parts) == parts[0] + (sep + Join(sep, parts[1..]));
      assert |sep| * (|parts| - 1) == |sep| + |sep| * (|parts[1..]| - 1);
    }
  }

  /** `s` with every whitespace character removed. */
  function NonWhitespace(s: string): string {
    if s == [] then ""
    else (if IsWhitespace(s[0]) then "" else [s[0]]) + NonWhitespace(s[1..])
  }

  /** The words of `parts`, one after the other, with nothing between them. */
  function Concat(parts: seq<string>): string {
    if parts == [] then "" else parts[0] + Concat(parts[1..])
  }

  /**
   * Python's `s.split(',')[0]`: `s` up to, not including, its first comma
   * (the whole of `s` when it has none). The split always yields at least
   * one piece, so indexing it never fails.
   */
  function BeforeFirstComma(s: string): (p: string)
    ensures p <= s
    ensures ',' !in p
    ensures p == s || s[|p|] == ','
  {
    if s == [] || s[0] == ',' then "" else [s[0]] + BeforeFirstComma(s[1..])
  }

  /** The three properties of `BeforeFirstComma` determine its result. */
  lemma BeforeFirstCommaUnique(s: string, p: string)
    requires p <= s && ',' !in p && (p == s || s[|p|] == ',')
    ensures p == BeforeFirstComma(s)
  {
  }

  /** `split()` finds no word exactly when the string is blank. */
  lemma {:induction false} SplitEmptyIffBlank(s: string)
    ensures Split(s) == [] <==> IsBlank(s)
    decreases |s|
  {
    if s != [] {
      if IsWhitespace(s[0]) {
        SplitEmptyIffBlank(s[1..]);
        if IsBlank(s[1..]) {
          forall i | 0 <= i < |s| ensures IsWhitespace(s[i]) {
            if i > 0 { assert s[i] == s[1..][i - 1]; }
          }
        } else {
          var i :| 0 <= i < |s[1..]| && !IsWhitespace(s[1..][i]);
          assert !IsWhitespace(s[i + 1]);
        }
      } else {
        assert !IsWhitespace(s[0]);
      }
    }
  }

  /**
   * The ASCII characters `str.split()` cuts at: tab, line feed, vertical tab,
   * form feed, carriage return, the four information separators and space;
   * beyond ASCII it also cuts at the no-break space U+00A0.
   */
  lemma AsciiWhitespace(c: char)
    ensures c < '\U{80}' ==> (IsWhitespace(c) <==> c in "\t\n\U{B}\U{C}\r\U{1C}\U{1D}\U{1E}\U{1F} ")
    ensures IsWhitespace('\U{A0}')
  {
  }

  /**
   * `split()` cuts at every whitespace character: the words of `a`, one
   * whitespace character, then `b` are the words of `a` followed by the
   * words of `b`. With `SplitToken` and `Split("") == []` this determines
   * `Split` on every string.
   */
  lemma {:induction false} SplitAtWhitespace(a: string, c: char, b: string)
    requires IsWhitespace(c)
    ensures Split(a + [c] + b) == Split(a) + Split(b)
    decreases |a|
  {
    var s := a + [c] + b;
    if a == [] {
      assert s[1..] == b;
    } else if IsWhitespace(a[0]) {
      assert s[1..] == a[1..] + [c] + b;
      SplitAtWhitespace(a[1..], c, b);
    } else {
      var m := WordEnd(a);
      WordEndAt(s, m);
      assert s[..m] == a[..m];
      assert s[m..] == a[m..] + [c] + b;
      SplitAtWhitespace(a[m..], c, b);
      assert Split(a) == [a[..m]] + Split(a[m..]);
      assert Split(s) == [s[..m]] + Split(s[m..]);
    }
  }

  /** The leading word of a string ends at the first whitespace character, or at the end. */
  lemma WordEndAt(s: string, k: nat)
    requires k <= |s|
    requires forall i :: 0 <= i < k ==> !IsWhitespace(s[i])
    requires k == |s| || IsWhitespace(s[k])
    ensures WordEnd(s) == k
  {
  }

  /** A string without whitespace splits into itself, when it is not empty. */
  lemma SplitToken(t: string)
    requires IsToken(t)
    ensures Split(t) == [t]
  {
    assert WordEnd(t) == |t| by { WordEndOfToken(t, ""); }
    assert t[..|t|] == t;
    assert t[|t|..] == "";
  }

  /** The leading word of `t + rest` ends where `t` does, when `rest` starts with whitespace. */
  lemma {:induction false} WordEndOfToken(t: string, rest: string)
    requires forall i :: 0 <= i < |t| ==> !IsWhitespace(t[i])
    requires rest == [] || IsWhitespace(rest[0])
    ensures WordEnd(t + rest) == |t|
    decreases |t|
  {
    if t != [] {
      assert (t + rest)[1..] == t[1..] + rest;
      WordEndOfToken(t[1..], rest);
    } else {
      assert t + rest == rest;
    }
  }

  /** `split()` on words joined by single spaces gives back those words. */
  lemma {:induction false} SplitJoinRoundTrip(words: seq<string>)
    requires forall k :: 0 <= k < |words| ==> IsToken(words[k])
    ensures Split(Join(" ", words)) == words
    decreases |words|
  {
    if |words| == 1 {
      SplitToken(words[0]);
    } else if |words| > 1 {
      var t, rest := words[0], Join(" ", words[1..]);
      var s := t + " " + rest;
      assert s == t + (" " + rest);
      WordEndOfToken(t, " " + rest);
      assert s[..|t|] == t;
      assert s[|t|..] == " " + rest;
      assert (" " + rest)[1..] == rest;
      SplitJoinRoundTrip(words[1..]);
      assert [t] + words[1..] == words;
    }
  }

  /** `split()` keeps every non-whitespace character of the string, in order, and nothing else. */
  lemma {:induction false} SplitKeepsNonWhitespace(s: string)
    ensures Concat(Split(s)) == NonWhitespace(s)
    decreases |s|
  {
    if s != [] {
      if IsWhitespace(s[0]) {
        SplitKeepsNonWhitespace(s[1..]);
      } else {
        var n := WordEnd(s);
        SplitKeepsNonWhitespace(s[n..]);
        NonWhitespaceAppend(s[..n], s[n..]);
        assert s[..n] + s[n..] == s;
        NonWhitespaceOfToken(s[..n]);
      }
    }
  }

  /** Removing whitespace distributes over concatenation. */
  lemma {:induction false} NonWhitespaceAppend(a: string, b: string)
    ensures NonWhitespace(a + b) == NonWhitespace(a) + NonWhitespace(b)
    decreases |a|
  {
    if a == [] {
      assert a + b == b;
    } else {
      assert (a + b)[1..] == a[1..] + b;
      NonWhitespaceAppend(a[1..], b);
    }
  }

  /** A string without whitespace loses nothing when whitespace is removed. */
  lemma {:induction false} NonWhitespaceOfToken(t: string)
    requires forall i :: 0 <= i < |t| ==> !IsWhitespace(t[i])
    ensures NonWhitespace(t) == t
    decreases |t|
  {
    if t != [] {
      NonWhitespaceOfToken(t[1..]);
      assert [t[0]] + t[1..] == t;
    }
  }
}
