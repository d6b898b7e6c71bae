/** The regular expressions that recognise video URLs, each written out as a
    matcher with the semantics JavaScript gives a non-global `RegExp` in
    `String.prototype.match` and `RegExp.prototype.test`:

    - the match is the one that starts at the LEFTMOST index of the string
      (the patterns are unanchored, so every index 0 .. |s| is tried in turn);
    - at one index, the alternatives of `(?:a|b|c)` are tried in order;
    - a quantified class `[...]+` or `\d+` is greedy: it takes the longest run,
      and since nothing follows the capture group, the longest run is the capture;
    - `.*` is greedy over the characters other than the line terminators and
      backtracks one character at a time, so the later literal is found at the
      LAST place it can follow.

    Only the shapes the application uses are modelled: a literal prefix chosen
    from ordered alternatives followed by one captured class run, and the
    `facebook\.com\/.*\/videos\/(\d+)` shape. */
module UrlPatterns {
  import opened Text

  /** The character classes that occur in the patterns. */
  datatype CharClass =
    | IdChar        // [^&\n?#]
    | FbWatchChar   // [^/?]
    | Digit         // \d
    | NotLineEnd    // .

  predicate IsLineTerminator(c: char) {
    c == '\n' || c == '\r' || c == '\U{2028}' || c == '\U{2029}'
  }

  predicate InClass(cls: CharClass, c: char) {
    match cls
    case IdChar => c != '&' && c != '\n' && c != '?' && c != '#'
    case FbWatchChar => c != '/' && c != '?'
    case Digit => '0' <= c <= '9'
    case NotLineEnd => !IsLineTerminator(c)
  }

  /** A pattern with one capture group. */
  datatype Pattern =
      /** `(?:a1|a2|...)(cls+)`, with the alternatives as literal strings */
    | Capture(alternatives: seq<string>, cls: CharClass)
      /** `facebook\.com\/.*\/videos\/(\d+)` */
    | VideosPath

  const FacebookHost: string := "facebook.com/"
  const VideosSegment: string := "/videos/"

  /** The class of the characters a pattern captures. */
  function CapturedClass(p: Pattern): CharClass {
    match p
    case Capture(_, cls) => cls
    case VideosPath => Digit
  }

  /** The length of the longest run of `cls` characters starting at index `k`:
      what a greedy `cls*` consumes there. */
  function RunLength(cls: CharClass, s: string, k: nat): (n: nat)
    requires k <= |s|
    ensures k + n <= |s|
    ensures forall j :: k <= j < k + n ==> InClass(cls, s[j])
    ensures k + n == |s| || !InClass(cls, s[k + n])
    decreases |s| - k
  {
    if k == |s| || !InClass(cls, s[k]) then 0 else 1 + RunLength(cls, s, k + 1)
  }

  /** The greedy run of `cls` starting at index `k`. */
  function RunAt(cls: CharClass, s: string, k: nat): string
    requires k <= |s|
  {
    s[k..k + RunLength(cls, s, k)]
  }

  /** `(?:alts[0]|alts[1]|...)(cls+)` tried at index `i` only: the capture of the
      first alternative that occurs at `i` and is followed by at least one `cls`
      character. */
  function CaptureAt(alts: seq<string>, cls: CharClass, s: string, i: nat): (r: Option<string>)
    requires i <= |s|
    ensures r.Some? ==> r.value != [] && forall k :: 0 <= k < |r.value| ==> InClass(cls, r.value[k])
  {
    if alts == [] then None
    else if SliceAt(s, alts[0], i) && RunLength(cls, s, i + |alts[0]|) > 0 then
      Some(RunAt(cls, s, i + |alts[0]|))
    else CaptureAt(alts[1..], cls, s, i)
  }

  /** True when `/videos/` followed by at least one digit occurs at index `p`. */
  predicate VideosHit(s: string, p: nat) {
    SliceAt(s, VideosSegment, p) && p + |VideosSegment| < |s| && InClass(Digit, s[p + |VideosSegment|])
  }

  /** The backtracking of `.*` in `.*\/videos\/(\d+)`: with `.*` first taking the
      `d` characters from `start`, then `d - 1`, ..., then none, the digits after
      the first `/videos/` found that way. */
  function VideosFrom(s: string, start: nat, d: nat): (r: Option<string>)
    requires start + d <= |s|
    ensures r.Some? ==> r.value != [] && forall k :: 0 <= k < |r.value| ==> InClass(Digit, r.value[k])
    decreases d
  {
    if VideosHit(s, start + d) then Some(RunAt(Digit, s, start + d + |VideosSegment|))
    else if d == 0 then None
    else VideosFrom(s, start, d - 1)
  }

  /** The pattern tried at index `i` only: its capture group, or None. */
  function MatchAt(p: Pattern, s: string, i: nat): (r: Option<string>)
    requires i <= |s|
    ensures r.Some? ==> r.value != [] && forall k :: 0 <= k < |r.value| ==> InClass(CapturedClass(p), r.value[k])
  {
    match p
    case Capture(alts, cls) => CaptureAt(alts, cls, s, i)
    case VideosPath =>
      if SliceAt(s, FacebookHost, i) then
        var start := i + |FacebookHost|;
        VideosFrom(s, start, RunLength(NotLineEnd, s, start))
      else None
  }

  /** The leftmost match at index `i` or later. */
  function MatchFrom(p: Pattern, s: string, i: nat): (r: Option<string>)
    requires i <= |s|
    ensures r.Some? ==> r.value != [] && forall k :: 0 <= k < |r.value| ==> InClass(CapturedClass(p), r.value[k])
    decreases |s| - i
  {
    var here := MatchAt(p, s, i);
    if here.Some? then here
    else if i == |s| then None
    else MatchFrom(p, s, i + 1)
  }

  /** `s.match(p)?.[1] ?? null`: the capture group of the leftmost match. */
  function Match(p: Pattern, s: string): (r: Option<string>)
    ensures r.Some? ==> r.value != [] && forall k :: 0 <= k < |r.value| ==> InClass(CapturedClass(p), r.value[k])
  {
    MatchFrom(p, s, 0)
  }

  /** `p.test(s)`: the same search as `match`, reporting only success. */
  predicate Test(p: Pattern, s: string) {
    Match(p, s).Some?
  }

  // ---------------------------------------------------------------------
  // The two searches, over an abstract test

  /** The least index `i, i + 1, ..., n` at which `hit` holds. */
  function FirstHit(hit: nat -> bool, i: nat, n: nat): (r: Option<nat>)
    ensures r.Some? ==> i <= r.value && (i <= n ==> r.value <= n) && hit(r.value)
    decreases n - i
  {
    if hit(i) then Some(i)
    else if i >= n then None
    else FirstHit(hit, i + 1, n)
  }

  /** `FirstHit` finds nothing exactly when no index has a hit, and no index
      before the one it finds has one. */
  lemma {:induction false} FirstHitIsFirst(hit: nat -> bool, i: nat, n: nat)
    requires i <= n
    ensures FirstHit(hit, i, n).None? <==> forall j :: i <= j <= n ==> !hit(j)
    ensures FirstHit(hit, i, n).Some? ==> forall j :: i <= j < FirstHit(hit, i, n).value ==> !hit(j)
    decreases n - i
  {
    if !hit(i) && i < n {
      FirstHitIsFirst(hit, i + 1, n);
    }
  }

  /** The indices where the pattern matches. */
  function MatchesAt(p: Pattern, s: string): nat -> bool {
    (j: nat) => j <= |s| && MatchAt(p, s, j).Some?
  }

  /** The unanchored search is `FirstHit` over the indices where the pattern matches. */
  lemma {:induction false} MatchFromIsFirstHit(p: Pattern, s: string, i: nat)
    requires i <= |s|
    ensures var j := FirstHit(MatchesAt(p, s), i, |s|);
      MatchFrom(p, s, i) == if j.Some? then MatchAt(p, s, j.value) else None
    decreases |s| - i
  {
    if MatchAt(p, s, i).None? && i < |s| {
      MatchFromIsFirstHit(p, s, i + 1);
    }
  }

  /** The search from index `i` finds the match at the least index `j >= i` that
      has one, and finds nothing when no such index exists. */
  lemma MatchFromLeftmost(p: Pattern, s: string, i: nat)
    requires i <= |s|
    ensures MatchFrom(p, s, i).None? <==> forall j :: i <= j <= |s| ==> MatchAt(p, s, j).None?
    ensures MatchFrom(p, s, i).Some? ==>
      exists j :: i <= j <= |s| && MatchAt(p, s, j) == MatchFrom(p, s, i) &&
                  forall k :: i <= k < j ==> MatchAt(p, s, k).None?
  {
    var hit := MatchesAt(p, s);
    MatchFromIsFirstHit(p, s, i);
    FirstHitIsFirst(hit, i, |s|);
    var first := FirstHit(hit, i, |s|);
    if first.Some? {
      var j := first.value;
      forall k | i <= k < j ensures MatchAt(p, s, k).None? {
        assert !hit(k);
      }
    } else {
      forall j | i <= j <= |s| ensures MatchAt(p, s, j).None? {
        assert !hit(j);
      }
    }
  }

  /** `match` is leftmost: it fails exactly when the pattern matches at no index,
      and otherwise returns the capture at the least index where it matches. */
  lemma MatchLeftmost(p: Pattern, s: string)
    ensures Match(p, s).None? <==> forall j :: 0 <= j <= |s| ==> MatchAt(p, s, j).None?
    ensures Match(p, s).Some? ==>
      exists j :: 0 <= j <= |s| && MatchAt(p, s, j) == Match(p, s) &&
                  forall k :: 0 <= k < j ==> MatchAt(p, s, k).None?
  {
    MatchFromLeftmost(p, s, 0);
  }

  /** Indices with no match can be skipped. */
  lemma {:induction false} MatchFromSkip(p: Pattern, s: string, i: nat, j: nat)
    requires i <= j <= |s|
    requires forall k :: i <= k < j ==> MatchAt(p, s, k).None?
    ensures MatchFrom(p, s, i) == MatchFrom(p, s, j)
    decreases j - i
  {
    if i < j {
      MatchFromSkip(p, s, i + 1, j);
    }
  }

  /** `c` follows the literal `a` at index `i` and is followed by the end of
      the string or by a character outside `cls`. */
  predicate GreedyAfter(s: string, a: string, i: nat, c: string, cls: CharClass) {
    SliceAt(s, a, i) && SliceAt(s, c, i + |a|) &&
    (i + |a| + |c| == |s| || !InClass(cls, s[i + |a| + |c|]))
  }

  /** The capture group of `(?:a1|...)(cls+)` is greedy: it follows one of the
      alternatives and is followed by the end of the string or by a character
      outside the class. */
  lemma {:induction false} CaptureAtGreedy(alts: seq<string>, cls: CharClass, s: string, i: nat)
    requires i <= |s|
    requires CaptureAt(alts, cls, s, i).Some?
    ensures exists a :: a in alts && GreedyAfter(s, a, i, CaptureAt(alts, cls, s, i).value, cls)
  {
    if SliceAt(s, alts[0], i) && RunLength(cls, s, i + |alts[0]|) > 0 {
      assert alts[0] in alts;
      assert GreedyAfter(s, alts[0], i, CaptureAt(alts, cls, s, i).value, cls);
    } else {
      CaptureAtGreedy(alts[1..], cls, s, i);
      var a :| a in alts[1..] && GreedyAfter(s, a, i, CaptureAt(alts[1..], cls, s, i).value, cls);
      assert a in alts;
    }
  }

  /** A literal that cannot start at index `i` because its first character is
      not there (or the string ends there). */
  lemma {:induction false} NoCaptureWithoutFirstChar(alts: seq<string>, cls: CharClass, s: string, i: nat, c: char)
    requires i <= |s| && (i == |s| || s[i] != c)
    requires forall k :: 0 <= k < |alts| ==> alts[k] != [] && alts[k][0] == c
    ensures CaptureAt(alts, cls, s, i).None?
  {
    if alts != [] {
      if i + |alts[0]| <= |s| {
        assert s[i..i + |alts[0]|][0] == s[i];
      }
      NoCaptureWithoutFirstChar(alts[1..], cls, s, i, c);
    }
  }

  /** The backtracking of `.*` fails exactly when no index
      `start <= q <= start + d` has `/videos/<digit>`. */
  lemma {:induction false} VideosFromNone(s: string, start: nat, d: nat)
    requires start + d <= |s|
    ensures VideosFrom(s, start, d).None? <==> forall q :: start <= q <= start + d ==> !VideosHit(s, q)
    decreases d
  {
    if !VideosHit(s, start + d) && d > 0 {
      VideosFromNone(s, start, d - 1);
    }
  }

  /** The backtracking of `.*` takes the LAST `/videos/<digits>` in its reach:
      for the index `q` of a hit with no hit after it, the result is the
      digits after `q`. */
  lemma {:induction false} VideosFromLast(s: string, start: nat, d: nat, q: nat)
    requires start <= q <= start + d <= |s|
    requires VideosHit(s, q)
    requires forall q' :: q < q' <= start + d ==> !VideosHit(s, q')
    ensures VideosFrom(s, start, d) == Some(RunAt(Digit, s, q + |VideosSegment|))
    decreases d
  {
    if q < start + d {
      assert !VideosHit(s, start + d);
      VideosFromLast(s, start, d - 1, q);
    }
  }

  /** A run that reaches the end of the string is taken whole. */
  lemma {:induction false} RunLengthToEnd(cls: CharClass, s: string, k: nat)
    requires k <= |s|
    requires forall j :: k <= j < |s| ==> InClass(cls, s[j])
    ensures RunLength(cls, s, k) == |s| - k
    decreases |s| - k
  {
    if k < |s| {
      RunLengthToEnd(cls, s, k + 1);
    }
  }

  /** A pattern matches nowhere in a string that lacks the first character of
      every literal it starts with. */
  lemma NoMatchWithoutFirstChar(p: Pattern, s: string, c: char)
    requires forall j :: 0 <= j < |s| ==> s[j] != c
    requires p.Capture? ==> forall k :: 0 <= k < |p.alternatives| ==> p.alternatives[k] != [] && p.alternatives[k][0] == c
    requires p.VideosPath? ==> c == FacebookHost[0]
    ensures Match(p, s).None?
  {
    forall j | 0 <= j <= |s| ensures MatchAt(p, s, j).None? {
      if p.Capture? {
        NoCaptureWithoutFirstChar(p.alternatives, p.cls, s, j, c);
      }
    }
    MatchLeftmost(p, s);
  }
}
