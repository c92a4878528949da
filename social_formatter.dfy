/** The social media post formatter page: a text buffer (`input`) edited in
    place by toolbar actions that splice fake-bold, italic, monospace or
    struck-through Unicode text over the textarea selection, insert a bullet
    at the start of the caret's line or append an emoji; and a "Format"
    preview (`formatted`) that deletes markdown-like delimiters. */
module SocialFormatter {
  import opened CodeUnits

  // ===========================================================================
  // formatText: four global, lazy `replace(/D(.*?)D/g, "$1")` passes
  // ===========================================================================

  const STAR: u16 := 0x2A
  const TILDE: u16 := 0x7E
  const BACKTICK: u16 := 0x60

  /** The units a regular expression's `.` does not match. */
  predicate IsLineTerminator(u: u16) { u == 0x0A || u == 0x0D || u == 0x2028 || u == 0x2029 }

  /** The units the four passes' delimiters are made of. */
  predicate IsMarker(u: u16) { u == STAR || u == TILDE || u == BACKTICK }

  predicate IsNotMarker(u: u16) { !IsMarker(u) }

  /** In `t`, the text after an opening delimiter `d`, the lazy group `(.*?)`
      can end at offset `k`: `d` follows there and `.` matches the `k` units
      before it. */
  predicate ClosesAt(d: seq<u16>, t: seq<u16>, k: nat) {
    k + |d| <= |t| && t[k..k + |d|] == d && forall j :: 0 <= j < k ==> !IsLineTerminator(t[j])
  }

  lemma ClosesAtShift(d: seq<u16>, t: seq<u16>, k: nat)
    requires t != []
    ensures ClosesAt(d, t, k + 1) <==> !IsLineTerminator(t[0]) && ClosesAt(d, t[1..], k)
  {
    if k + 1 + |d| <= |t| {
      var t1 := t[1..];
      assert forall j :: k <= j < k + |d| ==> t1[j] == t[j + 1];
      assert t[k + 1..k + 1 + |d|] == t[1..][k..k + |d|];
    }
    if ClosesAt(d, t, k + 1) {
      forall j | 0 <= j < k ensures !IsLineTerminator(t[1..][j]) {
        assert t[1..][j] == t[j + 1];
      }
    }
    if !IsLineTerminator(t[0]) && ClosesAt(d, t[1..], k) {
      forall j | 0 <= j < k + 1 ensures !IsLineTerminator(t[j]) {
        if j > 0 { assert t[j] == t[1..][j - 1]; }
      }
    }
  }

  /** Where the lazy group stops: the offset of the closing delimiter, trying
      offsets in increasing order and giving up at a line terminator or at the
      end of the text; -1 when the group cannot stop anywhere. */
  function FindCloser(d: seq<u16>, t: seq<u16>): (r: int)
    requires |d| > 0
    ensures r == -1 || (0 <= r && r + |d| <= |t|)
    decreases |t|, 1
  {
    if |d| <= |t| && t[..|d|] == d then 0
    else if t == [] || IsLineTerminator(t[0]) then -1
    else FindCloserLater(d, t)
  }

  /** The search moved on by one unit. */
  function FindCloserLater(d: seq<u16>, t: seq<u16>): (r: int)
    requires |d| > 0 && t != []
    ensures r == -1 || (1 <= r && r + |d| <= |t|)
    decreases |t|, 0
  {
    var k := FindCloser(d, t[1..]);
    if k < 0 then -1 else k + 1
  }

  /** FindCloser finds the least offset at which the lazy group can stop, and
      finds none exactly when there is no such offset. */
  lemma {:induction false} FindCloserIsLeast(d: seq<u16>, t: seq<u16>)
    requires |d| > 0
    ensures FindCloser(d, t) >= 0 ==>
              ClosesAt(d, t, FindCloser(d, t)) && forall k :: 0 <= k < FindCloser(d, t) ==> !ClosesAt(d, t, k)
    ensures FindCloser(d, t) < 0 ==> forall k :: 0 <= k <= |t| ==> !ClosesAt(d, t, k)
    decreases |t|
  {
    if |d| <= |t| && t[..|d|] == d {
    } else if t == [] || IsLineTerminator(t[0]) {
      NoCloserAfterBreak(d, t);
    } else {
      assert FindCloser(d, t) == FindCloserLater(d, t);
      FindCloserIsLeast(d, t[1..]);
      FindCloserLaterIsLeast(d, t, FindCloser(d, t[1..]));
    }
  }

  /** No group that starts with a line terminator, or at the end of the text,
      stops after offset 0. */
  lemma NoCloserAfterBreak(d: seq<u16>, t: seq<u16>)
    requires t == [] || IsLineTerminator(t[0])
    ensures forall k: nat :: 1 <= k <= |t| ==> !ClosesAt(d, t, k)
  {
    forall k: nat | 1 <= k <= |t| ensures !ClosesAt(d, t, k) { ClosesAtShift(d, t, k - 1); }
  }

  /** The search moved on by one unit finds the least offset when the search
      from the next unit does. */
  lemma FindCloserLaterIsLeast(d: seq<u16>, t: seq<u16>, r1: int)
    requires |d| > 0 && t != [] && !IsLineTerminator(t[0]) && !ClosesAt(d, t, 0)
    requires r1 == FindCloser(d, t[1..])
    requires r1 >= 0 ==> ClosesAt(d, t[1..], r1) && forall k :: 0 <= k < r1 ==> !ClosesAt(d, t[1..], k)
    requires r1 < 0 ==> forall k :: 0 <= k <= |t[1..]| ==> !ClosesAt(d, t[1..], k)
    ensures FindCloserLater(d, t) >= 0 ==>
              ClosesAt(d, t, FindCloserLater(d, t)) && forall k :: 0 <= k < FindCloserLater(d, t) ==> !ClosesAt(d, t, k)
    ensures FindCloserLater(d, t) < 0 ==> forall k :: 0 <= k <= |t| ==> !ClosesAt(d, t, k)
  {
    var r := FindCloserLater(d, t);
    assert r == if r1 < 0 then -1 else r1 + 1;
    if r1 >= 0 {
      ClosesAtShift(d, t, r1);
      forall k: nat | 1 <= k < r ensures !ClosesAt(d, t, k) {
        ClosesAtShift(d, t, k - 1);
      }
    } else {
      forall k: nat | 1 <= k <= |t| ensures !ClosesAt(d, t, k) {
        ClosesAtShift(d, t, k - 1);
      }
    }
  }

  /** Where the closer of a pair opening at the very start of `s` is (its
      offset after the opener), or -1 when `s` does not start with such a pair. */
  function PairAt(d: seq<u16>, s: seq<u16>): (r: int)
    requires |d| > 0
    ensures r == -1 || (0 <= r && 2 * |d| + r <= |s|)
  {
    if |d| <= |s| && s[..|d|] == d then FindCloser(d, s[|d|..]) else -1
  }

  /** One pass `text.replace(/D(.*?)D/g, "$1")` for the delimiter `d`: scanning
      left to right, an opener with a closer on the same line is replaced by
      the text between them and the scan resumes after the closer; otherwise
      one unit is kept and the scan moves on by one. */
  function StripPairs(d: seq<u16>, s: seq<u16>): (r: seq<u16>)
    requires |d| > 0
    ensures |r| <= |s|
    decreases |s|, 1
  {
    if s == [] then [] else StripAt(d, s, PairAt(d, s))
  }

  /** One step of the scan at the start of a non-empty `s`, given what PairAt
      found there. */
  function StripAt(d: seq<u16>, s: seq<u16>, k: int): (r: seq<u16>)
    requires |d| > 0 && s != [] && (k == -1 || (0 <= k && 2 * |d| + k <= |s|))
    ensures |r| <= |s|
    decreases |s|, 0
  {
    if k >= 0 then s[|d|..|d| + k] + StripPairs(d, s[2 * |d| + k..])
    else [s[0]] + StripPairs(d, s[1..])
  }

  /** Proof helper: the match branch of one scan step, given where PairAt
      found the closer. `PassAtLeastCloser` states it against `ClosesAt`. */
  lemma StripPairsAtMatch(d: seq<u16>, s: seq<u16>, k: nat)
    requires 0 < |d| && PairAt(d, s) == k
    ensures StripPairs(d, s) == s[|d|..|d| + k] + StripPairs(d, s[2 * |d| + k..])
  {
    assert s != [];
    assert StripPairs(d, s) == StripAt(d, s, k);
  }

  /** Proof helper: the copy branch of one scan step. `OpenerWithoutCloserKept`
      states it against `ClosesAt`. */
  lemma StripPairsAtCopy(d: seq<u16>, s: seq<u16>)
    requires |d| > 0 && s != [] && PairAt(d, s) < 0
    ensures StripPairs(d, s) == [s[0]] + StripPairs(d, s[1..])
  {
    assert StripPairs(d, s) == StripAt(d, s, -1);
  }

  /** A pass stated against the regular expression itself: where `s` starts
      with the delimiter and `k` is the least offset at which `(.*?)` can stop
      before a closing delimiter, the pair is replaced by the group's text
      (`$1`) and the scan resumes after the closer. */
  lemma PassAtLeastCloser(d: seq<u16>, s: seq<u16>, k: nat)
    requires |d| > 0 && |d| <= |s| && s[..|d|] == d
    requires ClosesAt(d, s[|d|..], k) && forall j :: 0 <= j < k ==> !ClosesAt(d, s[|d|..], j)
    ensures 2 * |d| + k <= |s|
    ensures StripPairs(d, s) == s[|d|..|d| + k] + StripPairs(d, s[2 * |d| + k..])
  {
    FindCloserIsLeast(d, s[|d|..]);
    assert PairAt(d, s) == k;
    StripPairsAtMatch(d, s, k);
  }

  /** An opener with no closer before the next line terminator is kept: where
      `s` does not start with the delimiter, or `(.*?)` can stop at no offset
      after it, the pass copies the first unit and moves on by one. */
  lemma OpenerWithoutCloserKept(d: seq<u16>, s: seq<u16>)
    requires |d| > 0 && s != []
    requires !(|d| <= |s| && s[..|d|] == d) ||
             (|d| <= |s| && forall k: nat :: k <= |s| - |d| ==> !ClosesAt(d, s[|d|..], k))
    ensures StripPairs(d, s) == [s[0]] + StripPairs(d, s[1..])
  {
    if |d| <= |s| && s[..|d|] == d {
      FindCloserIsLeast(d, s[|d|..]);
    }
    StripPairsAtCopy(d, s);
  }

  /** A pair found at the start of `s` is an opener, the group's text and a
      closer, with no line terminator in the group. */
  lemma PairAtSplits(d: seq<u16>, s: seq<u16>)
    requires |d| > 0 && PairAt(d, s) >= 0
    ensures var k := PairAt(d, s); s == d + s[|d|..|d| + k] + d + s[2 * |d| + k..]
    ensures forall j :: |d| <= j < |d| + PairAt(d, s) ==> !IsLineTerminator(s[j])
  {
    var k := PairAt(d, s);
    var t := s[|d|..];
    FindCloserIsLeast(d, t);
    assert t[k..k + |d|] == s[|d| + k..2 * |d| + k];
    forall j | |d| <= j < |d| + k ensures !IsLineTerminator(s[j]) {
      assert s[j] == t[j - |d|];
    }
  }

  const DOUBLE_STAR: seq<u16> := [STAR, STAR]
  const DOUBLE_TILDE: seq<u16> := [TILDE, TILDE]

  /** `formatText`: the passes for `**`, `*`, `~~` and `` ` ``, in that order. */
  function FormatText(text: seq<u16>): seq<u16> {
    StripPairs([BACKTICK], StripPairs(DOUBLE_TILDE, StripPairs([STAR], StripPairs(DOUBLE_STAR, text))))
  }

  // ---------------------------------------------------------------------------
  // What a pass deletes
  // ---------------------------------------------------------------------------

  lemma SubsequenceInfix(a: seq<u16>, m: seq<u16>, b: seq<u16>)
    ensures IsSubsequence(m, a + m + b)
  {
    SubsequenceReflexive(m);
    SubsequenceAppend(m, m, [], b);
    assert m + [] == m;
    SubsequenceAppend([], a, m, m + b);
    assert [] + m == m && a + (m + b) == a + m + b;
  }

  lemma FilterOfMarkers(d: seq<u16>)
    requires forall i :: 0 <= i < |d| ==> IsMarker(d[i])
    ensures Filter(IsNotMarker, d) == []
  {
    var r := Filter(IsNotMarker, d);
    assert forall i :: 0 <= i < |r| ==> r[i] in d;
  }

  /** Replacing a matched pair by its contents deletes only delimiter units. */
  lemma PairDeletesMarkers(d: seq<u16>, mid: seq<u16>, rest: seq<u16>, rest': seq<u16>)
    requires forall i :: 0 <= i < |d| ==> IsMarker(d[i])
    requires IsSubsequence(rest', rest) && Filter(IsNotMarker, rest') == Filter(IsNotMarker, rest)
    ensures IsSubsequence(mid + rest', d + mid + d + rest)
    ensures Filter(IsNotMarker, mid + rest') == Filter(IsNotMarker, d + mid + d + rest)
  {
    SubsequenceInfix(d, mid, d);
    SubsequenceAppend(mid, d + mid + d, rest', rest);
    FilterAppend(IsNotMarker, mid, rest');
    FilterAppend(IsNotMarker, d + mid + d, rest);
    FilterAppend(IsNotMarker, d + mid, d);
    FilterAppend(IsNotMarker, d, mid);
    FilterOfMarkers(d);
  }

  /** Keeping the first unit of `s` and deleting from the rest deletes from `s`. */
  lemma CopyKeepsUnit(s: seq<u16>, r: seq<u16>)
    requires s != [] && IsSubsequence(r, s[1..]) && Filter(IsNotMarker, r) == Filter(IsNotMarker, s[1..])
    ensures IsSubsequence([s[0]] + r, s)
    ensures Filter(IsNotMarker, [s[0]] + r) == Filter(IsNotMarker, s)
  {
    assert ([s[0]] + r)[0] == s[0] && ([s[0]] + r)[1..] == r;
    FilterAppend(IsNotMarker, [s[0]], r);
    FilterAppend(IsNotMarker, [s[0]], s[1..]);
    assert s == [s[0]] + s[1..];
  }

  lemma MatchDeletesMarkers(d: seq<u16>, s: seq<u16>, k: nat)
    requires |d| > 0 && forall i :: 0 <= i < |d| ==> IsMarker(d[i])
    requires PairAt(d, s) == k
    requires IsSubsequence(StripPairs(d, s[2 * |d| + k..]), s[2 * |d| + k..])
    requires Filter(IsNotMarker, StripPairs(d, s[2 * |d| + k..])) == Filter(IsNotMarker, s[2 * |d| + k..])
    ensures IsSubsequence(StripPairs(d, s), s)
    ensures Filter(IsNotMarker, StripPairs(d, s)) == Filter(IsNotMarker, s)
  {
    var mid, rest := s[|d|..|d| + k], s[2 * |d| + k..];
    PairAtSplits(d, s);
    StripPairsAtMatch(d, s, k);
    MatchDeletesStep(d, s, mid, rest, StripPairs(d, s), StripPairs(d, rest));
  }

  lemma MatchDeletesStep(d: seq<u16>, s: seq<u16>, mid: seq<u16>, rest: seq<u16>, r: seq<u16>, rest': seq<u16>)
    requires forall i :: 0 <= i < |d| ==> IsMarker(d[i])
    requires s == d + mid + d + rest && r == mid + rest'
    requires IsSubsequence(rest', rest) && Filter(IsNotMarker, rest') == Filter(IsNotMarker, rest)
    ensures IsSubsequence(r, s) && Filter(IsNotMarker, r) == Filter(IsNotMarker, s)
  {
    PairDeletesMarkers(d, mid, rest, rest');
  }

  /** A pass only deletes units, and every unit it deletes is a delimiter unit. */
  lemma {:induction false} StripPairsDeletesMarkers(d: seq<u16>, s: seq<u16>)
    requires |d| > 0 && forall i :: 0 <= i < |d| ==> IsMarker(d[i])
    ensures IsSubsequence(StripPairs(d, s), s)
    ensures Filter(IsNotMarker, StripPairs(d, s)) == Filter(IsNotMarker, s)
    decreases |s|
  {
    if s != [] {
      var k := PairAt(d, s);
      if k >= 0 {
        StripPairsDeletesMarkers(d, s[2 * |d| + k..]);
        MatchDeletesMarkers(d, s, k);
      } else {
        StripPairsDeletesMarkers(d, s[1..]);
        CopyDeletesMarkers(d, s);
      }
    }
  }

  /** Where no pair opens at the start of `s`, the pass deletes from `s`
      what it deletes from `s[1..]`. */
  lemma CopyDeletesMarkers(d: seq<u16>, s: seq<u16>)
    requires |d| > 0 && s != [] && PairAt(d, s) < 0
    requires IsSubsequence(StripPairs(d, s[1..]), s[1..])
    requires Filter(IsNotMarker, StripPairs(d, s[1..])) == Filter(IsNotMarker, s[1..])
    ensures IsSubsequence(StripPairs(d, s), s)
    ensures Filter(IsNotMarker, StripPairs(d, s)) == Filter(IsNotMarker, s)
  {
    StripPairsAtCopy(d, s);
    CopyKeepsUnit(s, StripPairs(d, s[1..]));
  }

  /** `formatText` only deletes `*`, `~` and `` ` `` units: the rest survive,
      all of them, in their original order. */
  lemma FormatTextDeletesOnlyMarkers(text: seq<u16>)
    ensures IsSubsequence(FormatText(text), text)
    ensures Filter(IsNotMarker, FormatText(text)) == Filter(IsNotMarker, text)
    ensures |FormatText(text)| <= |text|
  {
    var s1 := StripPairs(DOUBLE_STAR, text);
    var s2 := StripPairs([STAR], s1);
    var s3 := StripPairs(DOUBLE_TILDE, s2);
    var s4 := StripPairs([BACKTICK], s3);
    DelimitersAreMarkers();
    PassDeletesMarkers(DOUBLE_STAR, text, s1);
    PassDeletesMarkers([STAR], s1, s2);
    PassDeletesMarkers(DOUBLE_TILDE, s2, s3);
    PassDeletesMarkers([BACKTICK], s3, s4);
    DeletionsCompose(text, s1, s2, s3, s4);
  }

  lemma DelimitersAreMarkers()
    ensures forall i :: 0 <= i < |DOUBLE_STAR| ==> IsMarker(DOUBLE_STAR[i])
    ensures forall i :: 0 <= i < |[STAR]| ==> IsMarker([STAR][i])
    ensures forall i :: 0 <= i < |DOUBLE_TILDE| ==> IsMarker(DOUBLE_TILDE[i])
    ensures forall i :: 0 <= i < |[BACKTICK]| ==> IsMarker([BACKTICK][i])
  {
  }

  /** The result `r` of one pass over `s` deletes only delimiter units. */
  lemma PassDeletesMarkers(d: seq<u16>, s: seq<u16>, r: seq<u16>)
    requires |d| > 0 && (forall i :: 0 <= i < |d| ==> IsMarker(d[i])) && r == StripPairs(d, s)
    ensures IsSubsequence(r, s) && Filter(IsNotMarker, r) == Filter(IsNotMarker, s)
  {
    StripPairsDeletesMarkers(d, s);
  }

  /** Four passes that each delete only delimiter units together delete only
      delimiter units. */
  lemma DeletionsCompose(s0: seq<u16>, s1: seq<u16>, s2: seq<u16>, s3: seq<u16>, s4: seq<u16>)
    requires IsSubsequence(s1, s0) && IsSubsequence(s2, s1) && IsSubsequence(s3, s2) && IsSubsequence(s4, s3)
    requires Filter(IsNotMarker, s1) == Filter(IsNotMarker, s0) && Filter(IsNotMarker, s2) == Filter(IsNotMarker, s1)
    requires Filter(IsNotMarker, s3) == Filter(IsNotMarker, s2) && Filter(IsNotMarker, s4) == Filter(IsNotMarker, s3)
    ensures IsSubsequence(s4, s0) && Filter(IsNotMarker, s4) == Filter(IsNotMarker, s0) && |s4| <= |s0|
  {
    SubsequenceTransitive(s2, s1, s0);
    SubsequenceTransitive(s3, s2, s0);
    SubsequenceTransitive(s4, s3, s0);
    SubsequenceLength(s4, s0);
  }

  /** Text without any `*`, `~` or `` ` `` comes out unchanged. */
  lemma FormatTextWithoutMarkers(text: seq<u16>)
    requires forall i :: 0 <= i < |text| ==> !IsMarker(text[i])
    ensures FormatText(text) == text
  {
    FormatTextDeletesOnlyMarkers(text);
    FilterUnchanged(IsNotMarker, text);
    SubsequenceLength(FormatText(text), text);
  }

  // ---------------------------------------------------------------------------
  // A delimiter pair never spans a line break
  // ---------------------------------------------------------------------------

  lemma ClosesAtBeforeLineBreak(d: seq<u16>, t: seq<u16>, lt: u16, u: seq<u16>, k: nat)
    requires IsLineTerminator(lt) && forall i :: 0 <= i < |d| ==> !IsLineTerminator(d[i])
    ensures ClosesAt(d, t + [lt] + u, k) <==> ClosesAt(d, t, k)
  {
    var w := t + [lt] + u;
    if k + |d| <= |t| {
      assert w[k..k + |d|] == t[k..k + |d|];
      assert forall j :: 0 <= j < k ==> w[j] == t[j];
    } else if k <= |t| {
      if k + |d| <= |w| {
        assert w[k..k + |d|][|t| - k] == lt;
      }
    } else {
      assert w[|t|] == lt;
    }
  }

  lemma FindCloserBeforeLineBreak(d: seq<u16>, t: seq<u16>, lt: u16, u: seq<u16>)
    requires |d| > 0 && IsLineTerminator(lt) && forall i :: 0 <= i < |d| ==> !IsLineTerminator(d[i])
    ensures FindCloser(d, t + [lt] + u) == FindCloser(d, t)
  {
    FindCloserIsLeast(d, t + [lt] + u);
    FindCloserIsLeast(d, t);
    forall k: nat ensures ClosesAt(d, t + [lt] + u, k) <==> ClosesAt(d, t, k) {
      ClosesAtBeforeLineBreak(d, t, lt, u, k);
    }
  }

  /** Whether a pass sees an opener at the start of `a + [lt] + b`, and where
      its closer is, depends on `a` alone. */
  lemma OpenerBeforeLineBreak(d: seq<u16>, a: seq<u16>, lt: u16, b: seq<u16>)
    requires |d| > 0 && IsLineTerminator(lt) && forall i :: 0 <= i < |d| ==> !IsLineTerminator(d[i])
    ensures PairAt(d, a + [lt] + b) == PairAt(d, a)
  {
    var s := a + [lt] + b;
    if |d| > |a| && |d| <= |s| {
      assert s[..|d|][|a|] == lt && !IsLineTerminator(d[|a|]);
    }
    if |d| <= |a| {
      assert s[..|d|] == a[..|d|];
      assert s[|d|..] == a[|d|..] + [lt] + b;
      FindCloserBeforeLineBreak(d, a[|d|..], lt, b);
    }
  }

  /** A pass treats the lines of a text independently. */
  lemma {:induction false} StripPairsByLine(d: seq<u16>, a: seq<u16>, lt: u16, b: seq<u16>)
    requires |d| > 0 && IsLineTerminator(lt) && forall i :: 0 <= i < |d| ==> !IsLineTerminator(d[i])
    ensures StripPairs(d, a + [lt] + b) == StripPairs(d, a) + [lt] + StripPairs(d, b)
    decreases |a|
  {
    OpenerBeforeLineBreak(d, a, lt, b);
    if a == [] {
      EmptyLineByLine(d, lt, b);
    } else if PairAt(d, a) >= 0 {
      var k := PairAt(d, a);
      var rest := a[2 * |d| + k..];
      StripPairsByLine(d, rest, lt, b);
      MatchCaseByLine(d, a, lt, b, k, rest);
    } else {
      StripPairsByLine(d, a[1..], lt, b);
      CopyByLine(d, a, lt, b);
    }
  }

  /** The step of StripPairsByLine where a pair opens at the start of `a` and
      `rest` follows it. */
  lemma MatchCaseByLine(d: seq<u16>, a: seq<u16>, lt: u16, b: seq<u16>, k: nat, rest: seq<u16>)
    requires |d| > 0 && PairAt(d, a) == k && PairAt(d, a + [lt] + b) == k && rest == a[2 * |d| + k..]
    requires StripPairs(d, rest + [lt] + b) == StripPairs(d, rest) + [lt] + StripPairs(d, b)
    ensures StripPairs(d, a + [lt] + b) == StripPairs(d, a) + [lt] + StripPairs(d, b)
  {
    var m := a[|d|..|d| + k];
    PairAtSplits(d, a);
    PairShapeAppend(d, m, rest, lt, b);
    PairShapeByLine(d, m, rest, lt, b);
  }

  lemma PairShapeAppend(d: seq<u16>, m: seq<u16>, rest: seq<u16>, lt: u16, b: seq<u16>)
    ensures (d + m + d + rest) + [lt] + b == d + m + d + (rest + [lt] + b)
  {
  }

  /** A pair followed by `rest` and then by a line terminator and `b` is
      replaced in the same way as the pair followed by `rest` alone. */
  lemma PairShapeByLine(d: seq<u16>, m: seq<u16>, rest: seq<u16>, lt: u16, b: seq<u16>)
    requires |d| > 0 && PairAt(d, d + m + d + rest) == |m| && PairAt(d, d + m + d + (rest + [lt] + b)) == |m|
    requires StripPairs(d, rest + [lt] + b) == StripPairs(d, rest) + [lt] + StripPairs(d, b)
    ensures StripPairs(d, d + m + d + (rest + [lt] + b)) == StripPairs(d, d + m + d + rest) + [lt] + StripPairs(d, b)
  {
    MatchedSlices(d, m, rest);
    MatchedStep(d, d + m + d + rest, m, rest);
    MatchedSlices(d, m, rest + [lt] + b);
    MatchedStep(d, d + m + d + (rest + [lt] + b), m, rest + [lt] + b);
    Regroup(m, StripPairs(d, rest), lt, StripPairs(d, b));
  }

  /** Where `s` is `a + [lt] + b` and `t` is `s` from offset `j` on, with `j`
      inside `a`. */
  lemma SlicesOfFirstLine(a: seq<u16>, lt: u16, b: seq<u16>, s: seq<u16>, i: nat, j: nat, t: seq<u16>)
    requires i <= j <= |a| && s == a + [lt] + b && t == a[j..] + [lt] + b
    ensures s[i..j] == a[i..j] && s[j..] == t
  {
    SliceOfFirst(a, lt, b, i, j);
    DropOfFirst(a, lt, b, j);
  }

  /** The step of StripPairsByLine where the first line is empty. */
  lemma EmptyLineByLine(d: seq<u16>, lt: u16, b: seq<u16>)
    requires |d| > 0 && IsLineTerminator(lt) && forall i :: 0 <= i < |d| ==> !IsLineTerminator(d[i])
    ensures StripPairs(d, [] + [lt] + b) == StripPairs(d, []) + [lt] + StripPairs(d, b)
  {
    var s := [lt] + b;
    assert [] + [lt] + b == s && s[0] == lt && s[1..] == b;
    assert |d| > |s| || s[..|d|] != d by {
      if |d| <= |s| {
        assert s[..|d|][0] == lt;
      }
    }
    StripPairsAtCopy(d, s);
  }

  /** The step of StripPairsByLine where no pair opens at the start of `a`. */
  lemma CopyByLine(d: seq<u16>, a: seq<u16>, lt: u16, b: seq<u16>)
    requires |d| > 0 && a != [] && PairAt(d, a) < 0 && PairAt(d, a + [lt] + b) < 0
    requires StripPairs(d, a[1..] + [lt] + b) == StripPairs(d, a[1..]) + [lt] + StripPairs(d, b)
    ensures StripPairs(d, a + [lt] + b) == StripPairs(d, a) + [lt] + StripPairs(d, b)
  {
    var s, t := a + [lt] + b, a[1..] + [lt] + b;
    SlicesOfFirstLine(a, lt, b, s, 0, 1, t);
    CopyStep(d, a, lt, b, s, t);
  }

  lemma CopyStep(d: seq<u16>, a: seq<u16>, lt: u16, b: seq<u16>, s: seq<u16>, t: seq<u16>)
    requires |d| > 0 && a != [] && s != [] && PairAt(d, a) < 0 && PairAt(d, s) < 0
    requires s[..1] == a[..1] && s[1..] == t
    requires StripPairs(d, t) == StripPairs(d, a[1..]) + [lt] + StripPairs(d, b)
    ensures StripPairs(d, s) == StripPairs(d, a) + [lt] + StripPairs(d, b)
  {
    assert s[0] == s[..1][0];
    StripPairsAtCopy(d, s);
    StripPairsAtCopy(d, a);
    Regroup([a[0]], StripPairs(d, a[1..]), lt, StripPairs(d, b));
  }

  /** `formatText` treats the lines of a text independently: no delimiter pair
      is matched across a line terminator. */
  lemma FormatTextByLine(a: seq<u16>, lt: u16, b: seq<u16>)
    requires IsLineTerminator(lt)
    ensures FormatText(a + [lt] + b) == FormatText(a) + [lt] + FormatText(b)
  {
    var a1, b1 := StripPairs(DOUBLE_STAR, a), StripPairs(DOUBLE_STAR, b);
    var a2, b2 := StripPairs([STAR], a1), StripPairs([STAR], b1);
    var a3, b3 := StripPairs(DOUBLE_TILDE, a2), StripPairs(DOUBLE_TILDE, b2);
    StripPairsByLine(DOUBLE_STAR, a, lt, b);
    StripPairsByLine([STAR], a1, lt, b1);
    StripPairsByLine(DOUBLE_TILDE, a2, lt, b2);
    StripPairsByLine([BACKTICK], a3, lt, b3);
  }

  // ---------------------------------------------------------------------------
  // Passes over known text
  // ---------------------------------------------------------------------------

  /** Text without the delimiter's first unit passes through a pass. */
  lemma {:induction false} SkipPlain(d: seq<u16>, p: seq<u16>, rest: seq<u16>)
    requires |d| > 0 && d[0] !in p
    ensures StripPairs(d, p + rest) == p + StripPairs(d, rest)
    decreases |p|
  {
    if p == [] {
      assert p + rest == rest;
    } else {
      var s := p + rest;
      if |d| <= |s| {
        assert s[..|d|][0] == p[0] != d[0];
      }
      OpenerWithoutCloserKept(d, s);
      assert s[1..] == p[1..] + rest;
      SkipPlain(d, p[1..], rest);
      assert [p[0]] + (p[1..] + StripPairs(d, rest)) == p + StripPairs(d, rest);
    }
  }

  /** An opener with no delimiter unit anywhere after its first unit is never
      closed. */
  lemma UnclosedPairAt(d: seq<u16>, s: seq<u16>)
    requires |d| > 0 && s != [] && d[0] !in s[1..]
    ensures PairAt(d, s) < 0
  {
    if |d| <= |s| && s[..|d|] == d {
      var t := s[|d|..];
      FindCloserIsLeast(d, t);
      forall k | 0 <= k <= |t| ensures !ClosesAt(d, t, k) {
        if k + |d| <= |t| {
          assert t[k] == s[1..][|d| + k - 1];
          assert t[k..k + |d|][0] == t[k] != d[0];
        }
      }
    }
  }

  /** ... and the pass keeps the whole text. */
  lemma Unclosed(d: seq<u16>, s: seq<u16>)
    requires |d| > 0 && s != [] && d[0] !in s[1..]
    ensures StripPairs(d, s) == s
  {
    UnclosedPairAt(d, s);
    StripPairsAtCopy(d, s);
    SkipPlain(d, s[1..], []);
    assert s[1..] + [] == s[1..] && s == [s[0]] + s[1..];
  }

  lemma MatchedSlices(d: seq<u16>, m: seq<u16>, rest: seq<u16>)
    ensures var s := d + m + d + rest;
            s[..|d|] == d && s[|d|..] == m + d + rest &&
            s[|d|..|d| + |m|] == m && s[2 * |d| + |m|..] == rest
  {
  }

  /** A pair around text with neither a line terminator nor the delimiter's
      first unit closes at the first chance. */
  lemma MatchedPairAt(d: seq<u16>, m: seq<u16>, rest: seq<u16>)
    requires |d| > 0 && d[0] !in m && forall i :: 0 <= i < |m| ==> !IsLineTerminator(m[i])
    ensures PairAt(d, d + m + d + rest) == |m|
  {
    var s := d + m + d + rest;
    MatchedSlices(d, m, rest);
    var t := m + d + rest;
    FindCloserIsLeast(d, t);
    assert t[|m|..|m| + |d|] == d;
    assert ClosesAt(d, t, |m|);
    forall k | 0 <= k < |m| ensures !ClosesAt(d, t, k) {
      if k + |d| <= |t| {
        assert t[k..k + |d|][0] == m[k] != d[0];
      }
    }
  }

  /** The pass replaces such a pair by the text between the delimiters. */
  lemma Matched(d: seq<u16>, m: seq<u16>, rest: seq<u16>)
    requires |d| > 0 && d[0] !in m && forall i :: 0 <= i < |m| ==> !IsLineTerminator(m[i])
    ensures StripPairs(d, d + m + d + rest) == m + StripPairs(d, rest)
  {
    MatchedPairAt(d, m, rest);
    MatchedSlices(d, m, rest);
    MatchedStep(d, d + m + d + rest, m, rest);
  }

  lemma MatchedStep(d: seq<u16>, s: seq<u16>, m: seq<u16>, rest: seq<u16>)
    requires |d| > 0 && PairAt(d, s) == |m|
    requires s[|d|..|d| + |m|] == m && s[2 * |d| + |m|..] == rest
    ensures StripPairs(d, s) == m + StripPairs(d, rest)
  {
    StripPairsAtMatch(d, s, |m|);
  }

  const A_STAR_B: seq<u16> := Units("a*b")
  const STAR_A_LF_B_STAR: seq<u16> := Units("*a\nb*")

  /** A lone `*` is kept. */
  lemma UnclosedStarSample()
    ensures FormatText(A_STAR_B) == A_STAR_B
  {
    var a, b := [0x61 as u16], [0x62 as u16];
    assert A_STAR_B == a + ([STAR] + b);
    KeptByAllPasses(a, [STAR] + b);
  }

  /** A pair split by a line break is kept. */
  lemma SplitPairSample()
    ensures FormatText(STAR_A_LF_B_STAR) == STAR_A_LF_B_STAR
  {
    var a, b := [0x61 as u16], [0x62 as u16];
    assert STAR_A_LF_B_STAR == ([STAR] + a) + [LF] + (b + [STAR]);
    FormatTextByLine([STAR] + a, LF, b + [STAR]);
    KeptByAllPasses([], [STAR] + a);
    KeptByAllPasses(b, [STAR]);
    assert [] + ([STAR] + a) == [STAR] + a;
  }

  /** Plain text followed by a unit that opens nothing it can close. */
  lemma KeptByAllPasses(p: seq<u16>, s: seq<u16>)
    requires forall i :: 0 <= i < |p| ==> !IsMarker(p[i])
    requires s != [] && forall i :: 1 <= i < |s| ==> !IsMarker(s[i])
    ensures FormatText(p + s) == p + s
  {
    forall d: seq<u16> | d in [DOUBLE_STAR, [STAR], DOUBLE_TILDE, [BACKTICK]]
      ensures StripPairs(d, p + s) == p + s
    {
      assert d[0] !in p && d[0] !in s[1..] by {
        assert forall i :: 0 <= i < |s[1..]| ==> s[1..][i] == s[i + 1];
      }
      SkipPlain(d, p, s);
      Unclosed(d, s);
    }
  }


  /** Text that none of the four passes can touch. */
  predicate Plain(s: seq<u16>) {
    forall i :: 0 <= i < |s| ==> !IsMarker(s[i]) && !IsLineTerminator(s[i])
  }

  lemma PlainPasses(d: seq<u16>, s: seq<u16>)
    requires |d| > 0 && IsMarker(d[0]) && Plain(s)
    ensures StripPairs(d, s) == s
  {
    SkipPlain(d, s, []);
    assert s + [] == s;
  }

  /** The `**` pass keeps a `*` followed by plain non-empty text. */
  lemma SkipLoneStar(x: seq<u16>, rest: seq<u16>)
    requires x != [] && Plain(x)
    ensures StripPairs(DOUBLE_STAR, [STAR] + x + rest) == [STAR] + x + StripPairs(DOUBLE_STAR, rest)
  {
    var s := [STAR] + x + rest;
    assert s[..2][1] == x[0] != STAR;
    OpenerWithoutCloserKept(DOUBLE_STAR, s);
    assert s[1..] == x + rest;
    SkipPlain(DOUBLE_STAR, x, rest);
  }

  /** The shape of the delimiter help line: a bold word `b`, an italic word
      `i`, a struck word `g` and a monospace word `c`, joined by `sep`. */
  function HintShape(b: seq<u16>, i: seq<u16>, g: seq<u16>, c: seq<u16>, sep: seq<u16>): seq<u16> {
    DOUBLE_STAR + b + DOUBLE_STAR + (sep + ([STAR] + i + [STAR] + (sep + (DOUBLE_TILDE + g + DOUBLE_TILDE + (sep + ([BACKTICK] + c + [BACKTICK]))))))
  }

  lemma HintStarStarPass(b: seq<u16>, i: seq<u16>, t: seq<u16>, sep: seq<u16>)
    requires Plain(b) && Plain(i) && i != [] && Plain(sep) && sep != [] && STAR !in t
    ensures StripPairs(DOUBLE_STAR, DOUBLE_STAR + b + DOUBLE_STAR + (sep + ([STAR] + i + [STAR] + (sep + t)))) ==
            b + (sep + ([STAR] + i + [STAR] + (sep + t)))
  {
    Matched(DOUBLE_STAR, b, sep + ([STAR] + i + [STAR] + (sep + t)));
    LoneStarsKept(i, t, sep);
  }

  /** The `**` pass keeps the two lone `*` around the italic word. */
  lemma LoneStarsKept(i: seq<u16>, t: seq<u16>, sep: seq<u16>)
    requires Plain(i) && i != [] && Plain(sep) && sep != [] && STAR !in t
    ensures StripPairs(DOUBLE_STAR, sep + ([STAR] + i + [STAR] + (sep + t))) == sep + ([STAR] + i + [STAR] + (sep + t))
  {
    var t2 := [STAR] + i + [STAR] + (sep + t);
    SkipPlain(DOUBLE_STAR, sep, t2);
    assert t2 == [STAR] + i + ([STAR] + sep + t);
    SkipLoneStar(i, [STAR] + sep + t);
    SkipLoneStar(sep, t);
    SkipPlain(DOUBLE_STAR, t, []);
    assert t + [] == t;
  }

  lemma HintStarPass(b: seq<u16>, i: seq<u16>, t: seq<u16>, sep: seq<u16>)
    requires Plain(b) && Plain(i) && Plain(sep) && STAR !in t
    ensures StripPairs([STAR], b + (sep + ([STAR] + i + [STAR] + (sep + t)))) == (b + sep) + (i + (sep + t))
  {
    var t2 := [STAR] + i + [STAR] + (sep + t);
    assert b + (sep + t2) == (b + sep) + t2;
    SkipPlain([STAR], b + sep, t2);
    Matched([STAR], i, sep + t);
    SkipPlain([STAR], sep + t, []);
    assert sep + t + [] == sep + t;
  }

  lemma HintTildePass(x: seq<u16>, g: seq<u16>, t: seq<u16>, sep: seq<u16>)
    requires Plain(x) && Plain(g) && Plain(sep) && TILDE !in t
    ensures StripPairs(DOUBLE_TILDE, x + (DOUBLE_TILDE + g + DOUBLE_TILDE + (sep + t))) == x + (g + (sep + t))
  {
    SkipPlain(DOUBLE_TILDE, x, DOUBLE_TILDE + g + DOUBLE_TILDE + (sep + t));
    Matched(DOUBLE_TILDE, g, sep + t);
    SkipPlain(DOUBLE_TILDE, sep + t, []);
    assert sep + t + [] == sep + t;
  }

  lemma HintBacktickPass(x: seq<u16>, c: seq<u16>)
    requires Plain(x) && Plain(c)
    ensures StripPairs([BACKTICK], x + ([BACKTICK] + c + [BACKTICK])) == x + c
  {
    SkipPlain([BACKTICK], x, [BACKTICK] + c + [BACKTICK]);
    assert [BACKTICK] + c + [BACKTICK] == [BACKTICK] + c + [BACKTICK] + [];
    Matched([BACKTICK], c, []);
  }

  lemma PlainAppend(a: seq<u16>, b: seq<u16>)
    requires Plain(a) && Plain(b)
    ensures Plain(a + b)
  {
  }

  /** The first two passes of the help line's shape: the bold pair goes,
      then the italic pair. */
  lemma HintStarPasses(b: seq<u16>, i: seq<u16>, g: seq<u16>, c: seq<u16>, sep: seq<u16>)
    requires Plain(b) && Plain(i) && Plain(sep) && i != [] && sep != []
    requires Plain(g) && Plain(c)
    ensures StripPairs([STAR], StripPairs(DOUBLE_STAR, HintShape(b, i, g, c, sep))) ==
            ((b + sep) + (i + sep)) + (DOUBLE_TILDE + g + DOUBLE_TILDE + (sep + ([BACKTICK] + c + [BACKTICK])))
  {
    var t3 := DOUBLE_TILDE + g + DOUBLE_TILDE + (sep + ([BACKTICK] + c + [BACKTICK]));
    assert STAR !in t3;
    HintStarStarPass(b, i, t3, sep);
    HintStarPass(b, i, t3, sep);
  }

  /** The last two passes: the struck pair goes, then the code pair. */
  lemma HintOtherPasses(x: seq<u16>, g: seq<u16>, c: seq<u16>, sep: seq<u16>)
    requires Plain(x) && Plain(g) && Plain(c) && Plain(sep)
    ensures StripPairs([BACKTICK], StripPairs(DOUBLE_TILDE, x + (DOUBLE_TILDE + g + DOUBLE_TILDE + (sep + ([BACKTICK] + c + [BACKTICK]))))) ==
            x + (g + sep) + c
  {
    var t4, w := [BACKTICK] + c + [BACKTICK], x + (g + sep);
    CodePairPlain(c, t4);
    HintTildePass(x, g, t4, sep);
    PlainRegroup(x, g, sep, t4, w);
    HintBacktickPass(w, c);
  }

  lemma CodePairPlain(c: seq<u16>, t: seq<u16>)
    requires Plain(c) && t == [BACKTICK] + c + [BACKTICK]
    ensures TILDE !in t
  {
  }

  lemma PlainRegroup(x: seq<u16>, g: seq<u16>, sep: seq<u16>, t: seq<u16>, w: seq<u16>)
    requires Plain(x) && Plain(g) && Plain(sep) && w == x + (g + sep)
    ensures Plain(w) && x + (g + (sep + t)) == w + t
  {
    PlainAppend(g, sep);
    PlainAppend(x, g + sep);
  }

  /** With the passes in the page's order, every delimiter of the help line
      goes and all of its words and separators stay, in order. */
  lemma HintSample(b: seq<u16>, i: seq<u16>, g: seq<u16>, c: seq<u16>, sep: seq<u16>)
    requires Plain(b) && Plain(i) && Plain(g) && Plain(c) && Plain(sep) && i != [] && sep != []
    ensures FormatText(HintShape(b, i, g, c, sep)) == (b + sep) + (i + sep) + (g + sep) + c
  {
    HintStarPasses(b, i, g, c, sep);
    PlainAppend(b, sep);
    PlainAppend(i, sep);
    PlainAppend(b + sep, i + sep);
    HintOtherPasses((b + sep) + (i + sep), g, c, sep);
  }

  const BOLD_WORD: seq<u16> := Units("bold")
  const ITALIC_WORD: seq<u16> := Units("italic")
  const STRUCK_WORD: seq<u16> := Units("strikethrough")
  const MONO_WORD: seq<u16> := Units("monospace")
  /** ` &nbsp; ` as the page renders it: a space, U+00A0 and a space. */
  const GAP: seq<u16> := [0x20, 0xA0, 0x20]

  /** The help line under the editor, as rendered. */
  const HELP_LINE: seq<u16> :=
    Units("**bold**") + GAP + Units("*italic*") + GAP + Units("~~strikethrough~~") + GAP + Units("`monospace`")

  lemma HintShapeRegrouped(b: seq<u16>, i: seq<u16>, g: seq<u16>, c: seq<u16>, sep: seq<u16>)
    ensures HintShape(b, i, g, c, sep) ==
            (DOUBLE_STAR + b + DOUBLE_STAR) + sep + ([STAR] + i + [STAR]) + sep +
            (DOUBLE_TILDE + g + DOUBLE_TILDE) + sep + ([BACKTICK] + c + [BACKTICK])
  {
  }

  /** The help line has the delimiter help's shape, with its four words and
      the non-breaking gap between them. */
  lemma HelpLineText()
    ensures HintShape(BOLD_WORD, ITALIC_WORD, STRUCK_WORD, MONO_WORD, GAP) == HELP_LINE
  {
    HintShapeRegrouped(BOLD_WORD, ITALIC_WORD, STRUCK_WORD, MONO_WORD, GAP);
    HelpLinePieces();
  }

  lemma HelpLinePieces()
    ensures DOUBLE_STAR + BOLD_WORD + DOUBLE_STAR == Units("**bold**")
    ensures [STAR] + ITALIC_WORD + [STAR] == Units("*italic*")
    ensures DOUBLE_TILDE + STRUCK_WORD + DOUBLE_TILDE == Units("~~strikethrough~~")
    ensures [BACKTICK] + MONO_WORD + [BACKTICK] == Units("`monospace`")
  {
  }

  lemma HelpLineWordsPlain()
    ensures Plain(GAP) && Plain(BOLD_WORD) && Plain(ITALIC_WORD) && Plain(STRUCK_WORD) && Plain(MONO_WORD)
  {
  }

  /** The help line under the editor, `**bold**`, `*italic*`,
      `~~strikethrough~~` and `` `monospace` `` separated by ` &nbsp; `,
      loses every delimiter and keeps its words and gaps. */
  lemma HelpLineSample()
    ensures FormatText(HELP_LINE) == BOLD_WORD + GAP + ITALIC_WORD + GAP + STRUCK_WORD + GAP + MONO_WORD
  {
    HelpLineWordsPlain();
    HintSample(BOLD_WORD, ITALIC_WORD, STRUCK_WORD, MONO_WORD, GAP);
    HelpLineText();
  }
}
