/** Python's character-set trimming methods on `str`: `lstrip(chars)`, `rstrip(chars)`, and `strip()`
    with no argument. The `chars` argument is a set of characters, not a prefix or suffix to match;
    when it is omitted (`None`) the methods trim whitespace. Each method finds how many characters
    to drop at its end and returns the slice that remains. */
module Strip {

  /** The `chars` argument: omitted, or the set of characters in the given string. */
  datatype Chars = Whitespace | Given(members: set<char>)

  /** The code points for which Python 3's `str.isspace()` holds; `strip()` with no argument removes these. */
  predicate IsSpace(c: char) {
    || '\t' <= c <= '\r'                    // tab, line feed, vertical tab, form feed, carriage return
    || '\U{1C}' <= c <= ' '                  // the four information separators and space
    || c == '\U{85}' || c == '\U{A0}' || c == '\U{1680}'
    || '\U{2000}' <= c <= '\U{200A}'
    || c == '\U{2028}' || c == '\U{2029}' || c == '\U{202F}' || c == '\U{205F}' || c == '\U{3000}'
  }

  /** Whether a trim with argument `chars` removes `c`. */
  predicate Drops(chars: Chars, c: char) {
    match chars
    case Whitespace => IsSpace(c)
    case Given(m) => c in m
  }

  /** The length of the longest prefix of `s` whose characters all lie in `chars`. */
  function LeadRun(s: string, chars: Chars): (n: nat)
    ensures n <= |s|
    ensures forall i :: 0 <= i < n ==> Drops(chars, s[i])
    ensures n == |s| || !Drops(chars, s[n])
    decreases |s|
  {
    if s != [] && Drops(chars, s[0]) then 1 + LeadRun(s[1..], chars) else 0
  }

  /** The length of the longest suffix of `s` whose characters all lie in `chars`. */
  function TrailRun(s: string, chars: Chars): (n: nat)
    ensures n <= |s|
    ensures forall i :: |s| - n <= i < |s| ==> Drops(chars, s[i])
    ensures n == |s| || !Drops(chars, s[|s| - 1 - n])
    decreases |s|
  {
    if s != [] && Drops(chars, s[|s| - 1]) then 1 + TrailRun(s[..|s| - 1], chars) else 0
  }

  /** `s.lstrip(chars)`. */
  function LStrip(s: string, chars: Chars): string {
    s[LeadRun(s, chars)..]
  }

  /** `s.rstrip(chars)`. */
  function RStrip(s: string, chars: Chars): string {
    s[..|s| - TrailRun(s, chars)]
  }

  /** `s.strip()`, that is `s.strip(None)`: the result has no whitespace at either end. */
  function StripWs(s: string): (r: string)
    ensures r == [] || (!IsSpace(r[0]) && !IsSpace(r[|r| - 1]))
  {
    var t := LStrip(s, Whitespace);
    assert t != [] ==> t[0] == s[LeadRun(s, Whitespace)];
    RStrip(t, Whitespace)
  }

  /** A slice of a slice is a slice of the whole. */
  lemma SliceOfSlice(s: string, d: nat, e: nat, i: nat, j: nat)
    requires d <= e <= |s| && i <= j <= e - d
    ensures s[d..e][i..j] == s[d + i..d + j]
  {
    assert forall k :: 0 <= k < j - i ==> s[d..e][i..j][k] == s[d + i + k];
  }

  /** Where the piece `strip()` keeps lies in its input. */
  lemma StripWsRange(s: string) returns (i: nat, j: nat)
    ensures i <= j <= |s| && StripWs(s) == s[i..j]
  {
    i := LeadRun(s, Whitespace);
    j := |s| - TrailRun(s[i..], Whitespace);
  }

  /** `strip()` of a slice keeps a slice of the whole that lies inside the first. */
  lemma StripWsOfSlice(s: string, d: nat, e: nat) returns (i: nat, j: nat)
    requires d <= e <= |s|
    ensures d <= i <= j <= e && StripWs(s[d..e]) == s[i..j]
  {
    var i', j' := StripWsRange(s[d..e]);
    SliceOfSlice(s, d, e, i', j');
    i, j := d + i', d + j';
  }

  /** What surrounds the piece `strip()` keeps is whitespace. */
  lemma StripWsSlice(s: string) returns (i: nat, j: nat)
    ensures i <= j <= |s| && StripWs(s) == s[i..j]
    ensures forall k :: 0 <= k < i ==> IsSpace(s[k])
    ensures forall k :: j <= k < |s| ==> IsSpace(s[k])
  {
    i := LeadRun(s, Whitespace);
    var t := s[i..];
    var n := TrailRun(t, Whitespace);
    j := i + |t| - n;
    assert forall k :: j <= k < |s| ==> s[k] == t[k - i];
  }

  /** `strip()` keeps one contiguous piece of its input, with only whitespace on either side. */
  lemma StripWsSubstring(s: string)
    ensures exists i, j :: 0 <= i <= j <= |s| && StripWs(s) == s[i..j]
              && (forall k :: 0 <= k < i ==> IsSpace(s[k]))
              && (forall k :: j <= k < |s| ==> IsSpace(s[k]))
  {
    var i, j := StripWsSlice(s);
  }

  /** `strip()` yields the empty string exactly when its input is all whitespace. */
  lemma StripWsEmpty(s: string)
    ensures StripWs(s) == [] <==> forall k :: 0 <= k < |s| ==> IsSpace(s[k])
  {
    var i, j := StripWsSlice(s);
    if StripWs(s) != [] {
      assert StripWs(s)[0] == s[i];
    }
  }

  /** `lstrip` keeps exactly the part after a leading run of `chars`. */
  lemma LStripSplit(a: string, b: string, chars: Chars)
    requires forall k :: 0 <= k < |a| ==> Drops(chars, a[k])
    requires b == [] || !Drops(chars, b[0])
    ensures LStrip(a + b, chars) == b
  {
    var n := LeadRun(a + b, chars);
    assert (a + b)[|a|..] == b;
  }

  /** `rstrip` keeps exactly the part before a trailing run of `chars`. */
  lemma RStripSplit(a: string, b: string, chars: Chars)
    requires a == [] || !Drops(chars, a[|a| - 1])
    requires forall k :: 0 <= k < |b| ==> Drops(chars, b[k])
    ensures RStrip(a + b, chars) == a
  {
    var s := a + b;
    var n := TrailRun(s, chars);
    assert s[..|a|] == a;
  }

  /** `strip()` returns the text between two whitespace runs. */
  lemma StripWsSplit(w1: string, body: string, w2: string)
    requires forall k :: 0 <= k < |w1| ==> IsSpace(w1[k])
    requires forall k :: 0 <= k < |w2| ==> IsSpace(w2[k])
    requires body != [] && !IsSpace(body[0]) && !IsSpace(body[|body| - 1])
    ensures StripWs(w1 + body + w2) == body
  {
    assert w1 + body + w2 == w1 + (body + w2);
    LStripSplit(w1, body + w2, Whitespace);
    RStripSplit(body, w2, Whitespace);
  }
}
