/** The two regular-expression shapes the loader applies to raw text, with the `(?is)`
    flags: `open(.*?)close` (a lazy body) and `.*?open(.*)close.*?` (a greedy body), where
    `open` and `close` are literal tags matched without regard to ASCII case. Each is
    computed by plain searching and proved equal to the match that Go's leftmost-first
    regexp engine reports first. */
module Pattern {
  import opened Wrappers
  import opened GoStrings

  /** `pat` occurs at position `k` of `text`, ignoring ASCII case. */
  predicate MatchesAt(text: string, pat: string, k: int)
  {
    0 <= k && k + |pat| <= |text| &&
    forall t :: 0 <= t < |pat| ==> LowerChar(text[k + t]) == LowerChar(pat[t])
  }

  /** The first position at or after `from` where `pat` occurs. */
  function FindFirst(text: string, pat: string, from: nat): (r: Option<nat>)
    ensures r.Some? ==> from <= r.value && MatchesAt(text, pat, r.value)
    ensures forall k :: from <= k && (r.None? || k < r.value) ==> !MatchesAt(text, pat, k)
    decreases |text| - from
  {
    if from + |pat| > |text| then None
    else if MatchesAt(text, pat, from) then Some(from)
    else FindFirst(text, pat, from + 1)
  }

  /** The last position in `[from, hi)` where `pat` occurs. */
  function FindLastBelow(text: string, pat: string, from: nat, hi: nat): (r: Option<nat>)
    ensures r.Some? ==> from <= r.value < hi && MatchesAt(text, pat, r.value)
    ensures forall k :: from <= k < hi && (r.None? || r.value < k) ==> !MatchesAt(text, pat, k)
    decreases hi
  {
    if hi <= from then None
    else if MatchesAt(text, pat, hi - 1) then Some(hi - 1)
    else FindLastBelow(text, pat, from, hi - 1)
  }

  /** An occurrence of `open` at `i` and a later occurrence of `close` at `j`:
      the text between them can be captured. */
  ghost predicate IsMatch(text: string, open: string, close: string, i: int, j: int)
  {
    MatchesAt(text, open, i) && i + |open| <= j && MatchesAt(text, close, j)
  }

  ghost predicate HasMatch(text: string, open: string, close: string, from: int)
  {
    exists i, j :: from <= i && IsMatch(text, open, close, i, j)
  }

  /** The match of `open(.*?)close` reported first when searching from `from`: it starts
      as far left as possible and, from there, ends at the nearest closing tag. */
  ghost predicate IsLazyMatch(text: string, open: string, close: string, from: int, i: int, j: int)
  {
    && from <= i
    && IsMatch(text, open, close, i, j)
    && (forall i', j' :: from <= i' < i ==> !IsMatch(text, open, close, i', j'))
    && (forall j' :: j' < j ==> !IsMatch(text, open, close, i, j'))
  }

  /** The match of `.*?open(.*)close.*?` reported first when searching from `from`: the
      leading lazy `.*?` stops at the first opening tag that has a closing tag after it,
      and the greedy body then runs to the farthest closing tag. */
  ghost predicate IsGreedyMatch(text: string, open: string, close: string, from: int, i: int, j: int)
  {
    && from <= i
    && IsMatch(text, open, close, i, j)
    && (forall i', j' :: from <= i' < i ==> !IsMatch(text, open, close, i', j'))
    && (forall j' :: j < j' ==> !IsMatch(text, open, close, i, j'))
  }

  /** The group captured by the first match of `open(.*?)close` at or after `from`,
      or `None` when the pattern does not match. */
  function LazyCapture(text: string, open: string, close: string, from: nat): Option<string>
  {
    match FindFirst(text, open, from)
    case None => None
    case Some(i) =>
      match FindFirst(text, close, i + |open|)
      case None => None
      case Some(j) => Some(text[i + |open|..j])
  }

  /** The lazy capture is the body of the match the regexp engine reports first, and it is
      absent exactly when the pattern has no match. */
  lemma LazyCaptureIsFirstMatch(text: string, open: string, close: string, from: nat)
    ensures LazyCapture(text, open, close, from).None? <==> !HasMatch(text, open, close, from)
    ensures HasMatch(text, open, close, from) ==>
              exists i, j :: IsLazyMatch(text, open, close, from, i, j)
    ensures forall i, j :: IsLazyMatch(text, open, close, from, i, j) ==>
              LazyCapture(text, open, close, from) == Some(text[i + |open|..j])
  {
    match FindFirst(text, open, from)
    case None =>
    case Some(i) =>
      match FindFirst(text, close, i + |open|)
      case None =>
      case Some(j) =>
        assert IsLazyMatch(text, open, close, from, i, j);
        forall i', j' | IsLazyMatch(text, open, close, from, i', j')
          ensures LazyCapture(text, open, close, from) == Some(text[i' + |open|..j'])
        {
          LazyMatchUnique(text, open, close, from, i, j, i', j');
        }
  }

  /** The group captured by the first match of `.*?open(.*)close.*?` at or after `from`,
      or `None` when the pattern does not match. */
  function GreedyCapture(text: string, open: string, close: string, from: nat): Option<string>
  {
    match FindFirst(text, open, from)
    case None => None
    case Some(i) =>
      match FindLastBelow(text, close, i + |open|, |text| + 1)
      case None => None
      case Some(j) => Some(text[i + |open|..j])
  }

  lemma LazyCaptureOfMatch(text: string, open: string, close: string, from: nat, i: int, j: int)
    requires IsLazyMatch(text, open, close, from, i, j)
    ensures LazyCapture(text, open, close, from) == Some(text[i + |open|..j])
  {
    LazyCaptureIsFirstMatch(text, open, close, from);
  }

  /** The greedy capture is the body of the match the regexp engine reports first, and it
      is absent exactly when the pattern has no match. */
  lemma GreedyCaptureIsFirstMatch(text: string, open: string, close: string, from: nat)
    ensures GreedyCapture(text, open, close, from).None? <==> !HasMatch(text, open, close, from)
    ensures HasMatch(text, open, close, from) ==>
              exists i, j :: IsGreedyMatch(text, open, close, from, i, j)
    ensures forall i, j :: IsGreedyMatch(text, open, close, from, i, j) ==>
              GreedyCapture(text, open, close, from) == Some(text[i + |open|..j])
  {
    match FindFirst(text, open, from)
    case None =>
    case Some(i) =>
      match FindLastBelow(text, close, i + |open|, |text| + 1)
      case None =>
      case Some(j) =>
        assert IsGreedyMatch(text, open, close, from, i, j);
        forall i', j' | IsGreedyMatch(text, open, close, from, i', j')
          ensures GreedyCapture(text, open, close, from) == Some(text[i' + |open|..j'])
        {
          GreedyMatchUnique(text, open, close, from, i, j, i', j');
        }
  }

  /** At most one match is the lazy one: the lazy capture is determined by the text. */
  lemma LazyMatchUnique(text: string, open: string, close: string, from: int, i: int, j: int, i': int, j': int)
    requires IsLazyMatch(text, open, close, from, i, j)
    requires IsLazyMatch(text, open, close, from, i', j')
    ensures i == i' && j == j'
  {
  }

  /** At most one match is the greedy one. */
  lemma GreedyMatchUnique(text: string, open: string, close: string, from: int, i: int, j: int, i': int, j': int)
    requires IsGreedyMatch(text, open, close, from, i, j)
    requires IsGreedyMatch(text, open, close, from, i', j')
    ensures i == i' && j == j'
  {
  }

  /** Text spelled as `pat` in any mix of ASCII case occurs where it is written. */
  lemma SpelledMatchesAt(text: string, written: string, pat: string, k: nat)
    requires Lower(written) == Lower(pat)
    requires k + |written| <= |text| && text[k..k + |written|] == written
    ensures MatchesAt(text, pat, k)
  {
    assert |written| == |Lower(written)| == |Lower(pat)| == |pat|;
    forall t | 0 <= t < |pat| ensures LowerChar(text[k + t]) == LowerChar(pat[t]) {
      assert text[k + t] == written[t];
      assert Lower(written)[t] == Lower(pat)[t];
    }
  }

  /** In `lead + openText + body + closeText + rest`, where the tag texts spell `open` and
      `close` in any case and `close` cannot start inside the body, the tags around the body
      form the lazy match searched from the end of the lead. */
  lemma TaggedBodyIsLazyMatch(lead: string, openText: string, open: string, body: string,
                              closeText: string, close: string, rest: string)
    requires Lower(openText) == Lower(open) && Lower(closeText) == Lower(close)
    requires |close| > 0
    requires forall k :: 0 <= k < |body| ==> LowerChar(body[k]) != LowerChar(close[0])
    ensures IsLazyMatch(lead + openText + body + closeText + rest, open, close, |lead|,
                        |lead|, |lead| + |open| + |body|)
  {
    var text := lead + openText + body + closeText + rest;
    var i := |lead|;
    assert |openText| == |Lower(openText)| == |open|;
    assert |closeText| == |Lower(closeText)| == |close|;
    var j := i + |open| + |body|;
    assert MatchesAt(text, open, i) by {
      assert text[i..i + |open|] == openText;
      SpelledMatchesAt(text, openText, open, i);
    }
    assert MatchesAt(text, close, j) by {
      assert text[j..j + |close|] == closeText;
      SpelledMatchesAt(text, closeText, close, j);
    }
    forall j' | i + |open| <= j' < j ensures !MatchesAt(text, close, j') {
      assert text[j'] == body[j' - i - |open|];
    }
  }

  /** The same text: the lazy capture from the end of the lead is exactly the body,
      whatever follows. */
  lemma LazyCaptureOfTaggedBody(lead: string, openText: string, open: string, body: string,
                                closeText: string, close: string, rest: string)
    requires Lower(openText) == Lower(open) && Lower(closeText) == Lower(close)
    requires |close| > 0
    requires forall k :: 0 <= k < |body| ==> LowerChar(body[k]) != LowerChar(close[0])
    ensures LazyCapture(lead + openText + body + closeText + rest, open, close, |lead|) == Some(body)
  {
    var text := lead + openText + body + closeText + rest;
    var i := |lead|;
    assert |openText| == |Lower(openText)| == |open|;
    var j := i + |open| + |body|;
    TaggedBodyIsLazyMatch(lead, openText, open, body, closeText, close, rest);
    assert text[i + |open|..j] == body by {
      assert text == (lead + openText) + body + (closeText + rest);
    }
    LazyCaptureOfSlice(text, open, close, i, j, body);
  }

  /** Searching from `from` or from `to` gives the same capture when no opening tag
      starts in between. */
  lemma LazyCaptureSkip(text: string, open: string, close: string, from: nat, to: nat)
    requires from <= to
    requires forall k :: from <= k < to ==> !MatchesAt(text, open, k)
    ensures LazyCapture(text, open, close, from) == LazyCapture(text, open, close, to)
  {
    var a, b := FindFirst(text, open, from), FindFirst(text, open, to);
    if a.Some? {
      assert to <= a.value;
    }
    if b.Some? {
      assert from <= b.value;
    }
    assert a == b;
  }

  /** A lazy match whose body is `body` makes `body` the capture. */
  lemma LazyCaptureOfSlice(text: string, open: string, close: string, i: nat, j: int, body: string)
    requires IsLazyMatch(text, open, close, i, i, j)
    requires text[i + |open|..j] == body
    ensures LazyCapture(text, open, close, i) == Some(body)
  {
    LazyCaptureOfMatch(text, open, close, i, i, j);
  }
}
