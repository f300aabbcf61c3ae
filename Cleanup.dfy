/** The markdown-fence cleanup the dashboard applies to the model's answer:
    `response_text.lstrip("```json").rstrip("`").strip()`. */
module Cleanup {
  import opened Strip

  /** The characters of the argument of `lstrip`, "```json". */
  const FenceSet: set<char> := {'`', 'j', 's', 'o', 'n'}

  /** The argument of `lstrip`. */
  const Fence: Chars := Given(FenceSet)

  /** The argument of `rstrip`, "`". */
  const Backticks: Chars := Given({'`'})

  /** The three chained trims, left to right. The result is never longer than the input
      and neither starts nor ends with whitespace. */
  function Clean(s: string): (r: string)
    ensures |r| <= |s|
    ensures r == [] || (!IsSpace(r[0]) && !IsSpace(r[|r| - 1]))
  {
    StripWs(RStrip(LStrip(s, Fence), Backticks))
  }

  /** Where the text left by the two fence trims lies in the input: right after the opening run. */
  lemma FenceTrimRange(s: string) returns (d: nat, n: nat)
    ensures d == LeadRun(s, Fence) && d + n <= |s|
    ensures RStrip(LStrip(s, Fence), Backticks) == s[d..d + n]
  {
    d := LeadRun(s, Fence);
    var t := s[d..];
    n := |t| - TrailRun(t, Backticks);
    SliceOfSlice(s, d, |s|, 0, n);
    assert RStrip(t, Backticks) == t[0..n];
  }

  /** Where the piece the cleanup keeps lies in its input: never inside the opening run. */
  lemma CleanSlice(s: string) returns (i: nat, j: nat)
    ensures i <= j <= |s| && Clean(s) == s[i..j]
    ensures i >= LeadRun(s, Fence)
  {
    var d, n := FenceTrimRange(s);
    i, j := StripWsOfSlice(s, d, d + n);
  }

  /** The cleanup only removes characters from the two ends: what is left is one contiguous piece. */
  lemma CleanSubstring(s: string)
    ensures exists i, j :: 0 <= i <= j <= |s| && Clean(s) == s[i..j]
  {
    var i, j := CleanSlice(s);
  }

  /** Text that begins with one of `` ` ``, `j`, `s`, `o`, `n` loses at least that first character,
      even when it is genuine content rather than a fence. */
  lemma CleanDropsLeadingFenceChar(s: string)
    requires s != [] && s[0] in FenceSet
    ensures exists i, j :: 1 <= i <= j <= |s| && Clean(s) == s[i..j]
  {
    var i, j := CleanSlice(s);
  }

  /** For instance the bare JSON literal `null` loses its `n`. */
  lemma CleanEatsNull()
    ensures Clean("null") == "ull"
  {
    assert "null" == "n" + [] + "ull" + [] + [];
    CleanTrims("n", [], "ull", [], []);
  }

  /** The cleanup removes exactly an opening run of fence characters, a closing run of backticks,
      and the whitespace just inside them; what is left is `body`. A whitespace character stops
      the opening run and the closing run, so `body` may itself start or end with fence characters
      when whitespace separates it from the ends. */
  lemma CleanTrims(open: string, w1: string, body: string, w2: string, close: string)
    requires forall k :: 0 <= k < |open| ==> open[k] in FenceSet
    requires forall k :: 0 <= k < |w1| ==> IsSpace(w1[k])
    requires body != [] && !IsSpace(body[0]) && !IsSpace(body[|body| - 1])
    requires w1 == [] ==> body[0] !in FenceSet
    requires w2 == [] ==> body[|body| - 1] != '`'
    requires forall k :: 0 <= k < |w2| ==> IsSpace(w2[k])
    requires forall k :: 0 <= k < |close| ==> close[k] == '`'
    ensures Clean(open + w1 + body + w2 + close) == body
  {
    var inner := w1 + body + w2;
    var rest := inner + close;
    assert open + w1 + body + w2 + close == open + rest;
    assert rest[0] == (if w1 != [] then w1[0] else body[0]);
    LStripSplit(open, rest, Fence);
    assert LStrip(open + rest, Fence) == rest;
    assert inner[|inner| - 1] == (if w2 != [] then w2[|w2| - 1] else body[|body| - 1]);
    RStripSplit(inner, close, Backticks);
    assert RStrip(rest, Backticks) == inner;
    StripWsSplit(w1, body, w2);
  }

  /** Text that already starts with `{` and ends with `}` passes through unchanged. */
  lemma CleanKeepsBareObject(s: string)
    requires |s| > 0 && s[0] == '{' && s[|s| - 1] == '}'
    ensures Clean(s) == s
  {
    assert [] + [] + s + [] + [] == s;
    CleanTrims([], [], s, [], []);
  }

  /** A JSON object between an opening fence (any run of fence characters, "```json" among them),
      optional whitespace, and a closing run of backticks cleans to exactly the object. */
  lemma CleanFencedObject(open: string, w1: string, body: string, w2: string, close: string)
    requires forall k :: 0 <= k < |open| ==> open[k] in FenceSet
    requires forall k :: 0 <= k < |w1| ==> IsSpace(w1[k])
    requires |body| > 0 && body[0] == '{' && body[|body| - 1] == '}'
    requires forall k :: 0 <= k < |w2| ==> IsSpace(w2[k])
    requires forall k :: 0 <= k < |close| ==> close[k] == '`'
    ensures Clean(open + w1 + body + w2 + close) == body
  {
    CleanTrims(open, w1, body, w2, close);
  }

  /** One pass removes only the first of two openings separated by a newline: the second one
      (as in "```json\n```json{...}") survives. */
  lemma CleanKeepsSecondFence(open: string, body: string)
    requires open != [] && forall k :: 0 <= k < |open| ==> open[k] in FenceSet
    requires |body| > 0 && body[0] == '{' && body[|body| - 1] == '}'
    ensures Clean(open + "\n" + open + body) == open + body
  {
    var once := open + body;
    assert open + "\n" + open + body == open + "\n" + once;
    CleanTrimsOpening(open, "\n", once);
  }

  /** Cleanup is not idempotent: the second opening that survives one pass is removed by the next. */
  lemma CleanNotIdempotent(open: string, body: string)
    requires open != [] && forall k :: 0 <= k < |open| ==> open[k] in FenceSet
    requires |body| > 0 && body[0] == '{' && body[|body| - 1] == '}'
    ensures Clean(open + "\n" + open + body) == open + body
    ensures Clean(Clean(open + "\n" + open + body)) == body
  {
    CleanKeepsSecondFence(open, body);
    assert open + body == open + [] + body;
    CleanTrimsOpening(open, [], body);
  }

  /** The special case of `CleanTrims` with nothing after `body`. */
  lemma CleanTrimsOpening(open: string, w1: string, body: string)
    requires forall k :: 0 <= k < |open| ==> open[k] in FenceSet
    requires forall k :: 0 <= k < |w1| ==> IsSpace(w1[k])
    requires body != [] && !IsSpace(body[0]) && !IsSpace(body[|body| - 1])
    requires w1 == [] ==> body[0] !in FenceSet
    requires body[|body| - 1] != '`'
    ensures Clean(open + w1 + body) == body
  {
    assert open + w1 + body == open + w1 + body + [] + [];
    CleanTrims(open, w1, body, [], []);
  }

  /** Leading whitespace shields the opening fence from `lstrip`. */
  lemma CleanKeepsFenceAfterLeadingNewline(body: string)
    requires |body| > 0 && body[0] == '{' && body[|body| - 1] == '}'
    ensures Clean("\n```json\n" + body + "\n```") == "```json\n" + body
  {
    assert "\n```json\n" + body + "\n```" == [] + "\n" + ("```json\n" + body) + "\n" + "```";
    CleanTrims([], "\n", "```json\n" + body, "\n", "```");
  }

  /** A newline after the closing fence shields it from `rstrip`. */
  lemma CleanKeepsFenceBeforeTrailingNewline(body: string)
    requires |body| > 0 && body[0] == '{' && body[|body| - 1] == '}'
    ensures Clean("```json\n" + body + "\n```\n") == body + "\n```"
  {
    assert "```json\n" + body + "\n```\n" == "```json" + "\n" + (body + "\n```") + "\n" + [];
    CleanTrims("```json", "\n", body + "\n```", "\n", []);
  }
}
