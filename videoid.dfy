/**
 * `extract_video_id`: four fixed regular patterns, tried in list order with
 * `re.search`, each capturing an 11-character token over `[A-Za-z0-9_-]`.
 *
 * Each pattern is an optional scheme, an optional `www.`, an anchor literal, and
 * a tail that captures the token. The search is modelled as the regex engine runs
 * it: leftmost start first, and at each start the optional prefixes in
 * backtracking order. It is then proved equal to a plain scan for the leftmost
 * anchor occurrence whose tail matches.
 */
module VideoId {
  import opened Wrappers

  const IdLength: nat := 11

  /** `[a-zA-Z0-9_-]` */
  predicate IsIdChar(c: char) {
    ('a' <= c <= 'z') || ('A' <= c <= 'Z') || ('0' <= c <= '9') || c == '_' || c == '-'
  }

  predicate IsVideoId(id: string) {
    |id| == IdLength && forall k :: 0 <= k < |id| ==> IsIdChar(id[k])
  }

  /** `s` holds the literal `lit` starting at index `i`. */
  predicate StartsAt(s: string, i: nat, lit: string) {
    i + |lit| <= |s| && s[i..i + |lit|] == lit
  }

  /** `([a-zA-Z0-9_-]{11})` matched at index `i`; whatever follows is ignored. */
  function IdAt(s: string, i: nat): (r: Option<string>)
    ensures r.Some? ==> IsVideoId(r.value) && StartsAt(s, i, r.value)
  {
    if i + IdLength <= |s| && IsVideoId(s[i..i + IdLength]) then Some(s[i..i + IdLength]) else None
  }

  /** The index of the first line break at or after `i`, or the end of `s`: `.` never crosses it. */
  function LineEnd(s: string, i: nat): (k: nat)
    requires i <= |s|
    ensures i <= k <= |s|
    ensures k < |s| ==> s[k] == '\n'
    ensures forall j :: i <= j < k ==> s[j] != '\n'
    decreases |s| - i
  {
    if i == |s| || s[i] == '\n' then i else LineEnd(s, i + 1)
  }

  /** `v=([a-zA-Z0-9_-]{11})` matched at index `i`. */
  function VParam(s: string, i: nat): Option<string> {
    if StartsAt(s, i, "v=") then IdAt(s, i + 2) else None
  }

  /** An `&` at index `j` that is followed by `v=` and a token. */
  predicate AmpParam(s: string, j: nat) {
    j < |s| && s[j] == '&' && VParam(s, j + 1).Some?
  }

  /**
   * `(?:.*&)?v=(...)` after the query mark at `e`, with `k` the end of what `.*` may still
   * take. The greedy `.*` gives characters back from the right, so the last `&v=<token>`
   * before `k` wins; only when there is none is the group skipped and `v=` read at `e`.
   */
  function AmpScan(s: string, e: nat, k: nat): Option<string>
    requires e <= k <= |s|
    decreases k - e
  {
    if k == e then VParam(s, e)
    else if AmpParam(s, k - 1) then VParam(s, k)
    else AmpScan(s, e, k - 1)
  }

  /** The last `&v=<token>` before `k` wins, whatever comes before it. */
  lemma {:induction false} AmpScanLast(s: string, e: nat, k: nat, j: nat)
    requires e <= j < k <= |s| && AmpParam(s, j)
    requires forall j' :: j < j' < k ==> !AmpParam(s, j')
    ensures AmpScan(s, e, k) == VParam(s, j + 1)
    decreases k - e
  {
    if j < k - 1 {
      AmpScanLast(s, e, k - 1, j);
    }
  }

  /** With no `&v=<token>` before `k`, the group is skipped and `v=` is read right after the query mark. */
  lemma {:induction false} AmpScanNone(s: string, e: nat, k: nat)
    requires e <= k <= |s|
    requires forall j :: e <= j < k ==> !AmpParam(s, j)
    ensures AmpScan(s, e, k) == VParam(s, e)
    decreases k - e
  {
    if k > e {
      AmpScanNone(s, e, k - 1);
    }
  }

  /** The watch tail reads `v=` either right after the query mark or right after some `&` before `k`. */
  lemma {:induction false} AmpScanFrom(s: string, e: nat, k: nat)
    requires e <= k <= |s|
    ensures AmpScan(s, e, k) == VParam(s, e) ||
      exists j :: e <= j < k && AmpParam(s, j) && AmpScan(s, e, k) == VParam(s, j + 1)
    decreases k - e
  {
    if k > e {
      if AmpParam(s, k - 1) {
        assert e <= k - 1 < k && AmpScan(s, e, k) == VParam(s, k - 1 + 1);
      } else {
        AmpScanFrom(s, e, k - 1);
      }
    }
  }

  /** The tail of the watch pattern, read from the index `e` just after `watch?`. */
  function WatchTail(s: string, e: nat): Option<string>
    requires e <= |s|
  {
    AmpScan(s, e, LineEnd(s, e))
  }

  /** What follows the anchor literal: the token right away, or the watch query. */
  datatype Tail = BareId | WatchQuery

  /** A pattern: the optional scheme and `www.`, then `anchor`, then `tail`. */
  datatype Pattern = Pattern(anchor: string, tail: Tail)

  /** The four patterns of `extract_video_id`, in the order they are tried. */
  const Patterns: seq<Pattern> := [
    Pattern("youtube.com/watch?", WatchQuery),
    Pattern("youtu.be/", BareId),
    Pattern("youtube.com/embed/", BareId),
    Pattern("youtube.com/v/", BareId)
  ]

  /**
   * The texts `(?:https?:\/\/)?(?:www\.)?` can match, in the order the regex engine tries
   * them: both groups are greedy, and so is the `s?`.
   */
  const Prefixes: seq<string> := ["https://www.", "https://", "http://www.", "http://", "www.", ""]

  function TailAt(t: Tail, s: string, e: nat): Option<string>
    requires e <= |s|
  {
    match t
    case BareId => IdAt(s, e)
    case WatchQuery => WatchTail(s, e)
  }

  /** The anchor literal of `p` at index `q`, followed by a matching tail. */
  function AnchorMatch(p: Pattern, s: string, q: nat): Option<string> {
    if StartsAt(s, q, p.anchor) then TailAt(p.tail, s, q + |p.anchor|) else None
  }

  /** The regex match attempted at start `i`, trying the prefixes `pres` in order (backtracking). */
  function MatchWith(p: Pattern, s: string, i: nat, pres: seq<string>): Option<string> {
    if pres == [] then None
    else if StartsAt(s, i, pres[0]) && AnchorMatch(p, s, i + |pres[0]|).Some? then AnchorMatch(p, s, i + |pres[0]|)
    else MatchWith(p, s, i, pres[1..])
  }

  function MatchAt(p: Pattern, s: string, i: nat): Option<string> {
    MatchWith(p, s, i, Prefixes)
  }

  /** `re.search`: the leftmost start at which the pattern matches. */
  function SearchFrom(p: Pattern, s: string, i: nat): Option<string>
    requires i <= |s|
    decreases |s| - i
  {
    if MatchAt(p, s, i).Some? then MatchAt(p, s, i)
    else if i == |s| then None
    else SearchFrom(p, s, i + 1)
  }

  function Search(p: Pattern, s: string): Option<string> {
    SearchFrom(p, s, 0)
  }

  /** The leftmost occurrence of the anchor literal at or after `q` whose tail matches. */
  function ScanFrom(p: Pattern, s: string, q: nat): Option<string>
    requires q <= |s|
    decreases |s| - q
  {
    if AnchorMatch(p, s, q).Some? then AnchorMatch(p, s, q)
    else if q == |s| then None
    else ScanFrom(p, s, q + 1)
  }

  /** The scan returns the match at the leftmost anchor occurrence that has one, and `None` when none has. */
  lemma {:induction false} ScanFromSpec(p: Pattern, s: string, q: nat)
    requires q <= |s|
    ensures ScanFrom(p, s, q).Some? ==> exists q' :: (q <= q' <= |s| && AnchorMatch(p, s, q') == ScanFrom(p, s, q) &&
      forall q'' :: q <= q'' < q' ==> AnchorMatch(p, s, q'').None?)
    ensures ScanFrom(p, s, q).None? ==> forall q' :: q <= q' <= |s| ==> AnchorMatch(p, s, q').None?
    decreases |s| - q
  {
    var r := ScanFrom(p, s, q);
    if AnchorMatch(p, s, q).Some? {
      assert q <= q <= |s| && AnchorMatch(p, s, q) == r;
    } else if q < |s| {
      ScanFromSpec(p, s, q + 1);
      assert r == ScanFrom(p, s, q + 1);
      if r.Some? {
        var q' :| q + 1 <= q' <= |s| && AnchorMatch(p, s, q') == r &&
          forall q'' :: q + 1 <= q'' < q' ==> AnchorMatch(p, s, q'').None?;
        assert forall q'' :: q <= q'' < q' ==> AnchorMatch(p, s, q'').None?;
      }
    }
  }

  /** The loop of `extract_video_id`: the first pattern in list order that matches decides. */
  function FirstMatch(ps: seq<Pattern>, url: string): Option<string> {
    if ps == [] then None
    else if Search(ps[0], url).Some? then Search(ps[0], url)
    else FirstMatch(ps[1..], url)
  }

  function ExtractVideoId(url: string): Option<string> {
    FirstMatch(Patterns, url)
  }

  /** No optional prefix contains a `y`, and every anchor starts with one. */
  lemma PrefixesAndAnchors()
    ensures forall pre :: pre in Prefixes ==> 'y' !in pre
    ensures "" in Prefixes
    ensures forall k :: 0 <= k < |Patterns| ==> |Patterns[k].anchor| > 0 && Patterns[k].anchor[0] == 'y'
  {
  }

  /** Where an anchor occurrence starts, only the empty prefix can apply. */
  lemma {:induction false} MatchWithAtAnchor(p: Pattern, s: string, i: nat, pres: seq<string>)
    requires |p.anchor| > 0 && p.anchor[0] == 'y'
    requires AnchorMatch(p, s, i).Some?
    requires "" in pres
    requires forall pre :: pre in pres ==> 'y' !in pre
    ensures MatchWith(p, s, i, pres) == AnchorMatch(p, s, i)
  {
    if pres[0] != "" {
      assert s[i] == 'y';
      assert pres[0][0] in pres[0];
      assert !StartsAt(s, i, pres[0]);
      assert "" in pres[1..];
      MatchWithAtAnchor(p, s, i, pres[1..]);
    }
  }

  /** A successful match at start `i` is an anchor match right after one of the prefixes. */
  lemma {:induction false} MatchWithLands(p: Pattern, s: string, i: nat, pres: seq<string>)
    requires MatchWith(p, s, i, pres).Some?
    ensures exists pre :: pre in pres && StartsAt(s, i, pre) && AnchorMatch(p, s, i + |pre|) == MatchWith(p, s, i, pres)
  {
    if !(StartsAt(s, i, pres[0]) && AnchorMatch(p, s, i + |pres[0]|).Some?) {
      MatchWithLands(p, s, i, pres[1..]);
      var pre :| pre in pres[1..] && StartsAt(s, i, pre) && AnchorMatch(p, s, i + |pre|) == MatchWith(p, s, i, pres[1..]);
      assert pre in pres;
    }
  }

  /** The scan skips a stretch where no anchor match starts. */
  lemma {:induction false} ScanSkip(p: Pattern, s: string, a: nat, b: nat)
    requires a <= b <= |s|
    requires forall q :: a <= q < b ==> AnchorMatch(p, s, q).None?
    ensures ScanFrom(p, s, a) == ScanFrom(p, s, b)
    decreases b - a
  {
    if a < b {
      ScanSkip(p, s, a + 1, b);
    }
  }

  /**
   * `re.search` with the optional prefixes finds the same token as the plain scan for
   * the leftmost anchor occurrence: a prefix never contains the `y` an anchor starts with,
   * so it can neither hide an earlier anchor nor move the match to another one.
   */
  lemma {:induction false} SearchFromIsScan(p: Pattern, s: string, i: nat)
    requires |p.anchor| > 0 && p.anchor[0] == 'y'
    requires i <= |s|
    ensures SearchFrom(p, s, i) == ScanFrom(p, s, i)
    decreases |s| - i
  {
    PrefixesAndAnchors();
    if AnchorMatch(p, s, i).Some? {
      MatchWithAtAnchor(p, s, i, Prefixes);
    } else if MatchAt(p, s, i).Some? {
      MatchWithLands(p, s, i, Prefixes);
      var pre :| pre in Prefixes && StartsAt(s, i, pre) && AnchorMatch(p, s, i + |pre|) == MatchAt(p, s, i);
      PrefixThenAnchor(p, s, i, pre);
    } else if i < |s| {
      SearchFromIsScan(p, s, i + 1);
    }
  }

  /** A prefix without `y` that ends where an anchor match starts: the scan from the next index lands there. */
  lemma PrefixThenAnchor(p: Pattern, s: string, i: nat, pre: string)
    requires |p.anchor| > 0 && p.anchor[0] == 'y'
    requires 'y' !in pre && StartsAt(s, i, pre)
    requires AnchorMatch(p, s, i).None? && AnchorMatch(p, s, i + |pre|).Some?
    ensures i < |s| && ScanFrom(p, s, i + 1) == AnchorMatch(p, s, i + |pre|)
  {
    var q := i + |pre|;
    assert q != i;
    forall r | i < r < q
      ensures AnchorMatch(p, s, r).None?
    {
      assert s[r] == pre[r - i] by {
        assert s[i..q][r - i] == s[r];
      }
      assert pre[r - i] in pre;
      assert !StartsAt(s, r, p.anchor);
    }
    ScanSkip(p, s, i + 1, q);
  }

  lemma SearchIsScan(p: Pattern, s: string)
    requires |p.anchor| > 0 && p.anchor[0] == 'y'
    ensures Search(p, s) == ScanFrom(p, s, 0)
  {
    SearchFromIsScan(p, s, 0);
  }

  /** `s` holds the literal `lit` ending just before index `i`. */
  predicate EndsAt(s: string, i: nat, lit: string) {
    |lit| <= i && StartsAt(s, i - |lit|, lit)
  }

  /**
   * The places a token may be taken from: right after `youtu.be/`, `youtube.com/embed/`,
   * `youtube.com/v/` or `youtube.com/watch?v=`, or right after an `&v=` that follows
   * `youtube.com/watch?` on the same line.
   */
  ghost predicate AfterMarker(url: string, i: nat) {
    EndsAt(url, i, "youtu.be/") || EndsAt(url, i, "youtube.com/embed/") || EndsAt(url, i, "youtube.com/v/") ||
    EndsAt(url, i, "youtube.com/watch?v=") ||
    (EndsAt(url, i, "&v=") &&
     exists q: nat :: StartsAt(url, q, "youtube.com/watch?") && q + 18 <= i - 3 &&
       forall j :: q + 18 <= j < i - 3 ==> url[j] != '\n')
  }

  /** A token found by one pattern's anchor match sits right after a marker. */
  lemma AnchorMatchSound(k: nat, url: string, q: nat)
    requires k < |Patterns| && AnchorMatch(Patterns[k], url, q).Some?
    ensures var id := AnchorMatch(Patterns[k], url, q).value;
      IsVideoId(id) && exists i :: StartsAt(url, i, id) && AfterMarker(url, i)
  {
    var p := Patterns[k];
    var id := AnchorMatch(p, url, q).value;
    var e := q + |p.anchor|;
    if p.tail == BareId {
      assert IdAt(url, e) == Some(id);
      assert EndsAt(url, e, p.anchor);
      assert AfterMarker(url, e);
    } else {
      assert k == 0;
      var lim := LineEnd(url, e);
      AmpScanFrom(url, e, lim);
      if VParam(url, e) != Some(id) {
        var j :| e <= j < lim && AmpParam(url, j) && Some(id) == VParam(url, j + 1);
        WatchAmpSound(url, q, j);
      } else {
        WatchDirectSound(url, q);
      }
    }
  }

  /** A token read after an `&v=` on the line of `youtube.com/watch?` sits right after a marker. */
  lemma WatchAmpSound(url: string, q: nat, j: nat)
    requires StartsAt(url, q, Patterns[0].anchor)
    requires q + |Patterns[0].anchor| <= j < LineEnd(url, q + |Patterns[0].anchor|) && AmpParam(url, j)
    ensures StartsAt(url, j + 3, VParam(url, j + 1).value) && AfterMarker(url, j + 3)
  {
    var e := q + |Patterns[0].anchor|;
    assert url[j..j + 3] == "&v=" by {
      assert url[j + 1..j + 3] == "v=";
    }
    assert forall j' :: e <= j' < j ==> url[j'] != '\n';
    assert StartsAt(url, q, "youtube.com/watch?");
  }

  /** A token read right after `youtube.com/watch?v=` sits right after that marker. */
  lemma WatchDirectSound(url: string, q: nat)
    requires StartsAt(url, q, Patterns[0].anchor)
    requires VParam(url, q + |Patterns[0].anchor|).Some?
    ensures var e := q + |Patterns[0].anchor|;
      StartsAt(url, e + 2, VParam(url, e).value) && AfterMarker(url, e + 2)
  {
    var e := q + |Patterns[0].anchor|;
    assert url[q..e + 2] == url[q..e] + url[e..e + 2];
    assert EndsAt(url, e + 2, "youtube.com/watch?v=");
  }

  /**
   * What `extract_video_id` returns is `None` or an 11-character token over
   * `[A-Za-z0-9_-]` that occurs in the URL right after one of the markers.
   */
  lemma ExtractSound(url: string)
    ensures ExtractVideoId(url).Some? ==>
      var id := ExtractVideoId(url).value;
      IsVideoId(id) && exists i :: StartsAt(url, i, id) && AfterMarker(url, i)
  {
    var r := ExtractVideoId(url);
    FirstMatchSpec(Patterns, url);
    if r.Some? {
      var k :| 0 <= k < |Patterns| && Search(Patterns[k], url) == r;
      PrefixesAndAnchors();
      SearchIsScan(Patterns[k], url);
      ScanFromSpec(Patterns[k], url, 0);
      var q :| 0 <= q <= |url| && AnchorMatch(Patterns[k], url, q) == r;
      AnchorMatchSound(k, url, q);
    }
  }

  /** A URL holding none of the four anchor literals has no video identifier. */
  lemma ExtractWithoutAnchor(url: string)
    requires forall k, q :: 0 <= k < |Patterns| && 0 <= q <= |url| ==> !StartsAt(url, q, Patterns[k].anchor)
    ensures ExtractVideoId(url) == None
  {
    PrefixesAndAnchors();
    FirstMatchSpec(Patterns, url);
    forall k | 0 <= k < |Patterns|
      ensures Search(Patterns[k], url).None?
    {
      SearchIsScan(Patterns[k], url);
      ScanSkip(Patterns[k], url, 0, |url|);
    }
  }

  /** Text without a `y` holds no anchor, so the scan passes over it. */
  lemma ScanPastPlainText(p: Pattern, s: string, pre: string)
    requires |p.anchor| > 0 && p.anchor[0] == 'y'
    requires 'y' !in pre && |pre| <= |s| && s[..|pre|] == pre
    ensures ScanFrom(p, s, 0) == ScanFrom(p, s, |pre|)
  {
    forall q | 0 <= q < |pre|
      ensures AnchorMatch(p, s, q).None?
    {
      assert s[q] == pre[q];
      assert pre[q] in pre;
      assert !StartsAt(s, q, p.anchor);
    }
    ScanSkip(p, s, 0, |pre|);
  }

  /**
   * The short, embed and legacy forms: after text without a `y` (a scheme, `www.`, nothing),
   * the anchor and a token, the pattern captures exactly that token, whatever follows it.
   */
  lemma SearchBareForm(p: Pattern, pre: string, id: string, rest: string)
    requires p.tail == BareId && |p.anchor| > 0 && p.anchor[0] == 'y'
    requires 'y' !in pre && IsVideoId(id)
    ensures Search(p, pre + p.anchor + id + rest) == Some(id)
  {
    ScanBareForm(p, pre, id, rest);
    SearchIsScan(p, pre + p.anchor + id + rest);
  }

  lemma ScanBareForm(p: Pattern, pre: string, id: string, rest: string)
    requires p.tail == BareId && |p.anchor| > 0 && p.anchor[0] == 'y'
    requires 'y' !in pre && IsVideoId(id)
    ensures ScanFrom(p, pre + p.anchor + id + rest, 0) == Some(id)
  {
    var url := pre + p.anchor + id + rest;
    var e := |pre| + |p.anchor|;
    assert url[..|pre|] == pre;
    ScanPastPlainText(p, url, pre);
    assert StartsAt(url, |pre|, p.anchor) by {
      assert url[|pre|..e] == p.anchor;
    }
    assert IdAt(url, e) == Some(id) by {
      assert url[e..e + IdLength] == id;
    }
    assert AnchorMatch(p, url, |pre|) == Some(id);
  }

  /**
   * The watch form: the scheme and `www.` are optional, and whatever follows the token is
   * ignored as long as it holds no later `&v=`.
   */
  lemma SearchWatchForm(pre: string, id: string, rest: string)
    requires 'y' !in pre && IsVideoId(id)
    requires forall j :: 0 <= j < |rest| ==> !StartsAt(rest, j, "&v=")
    ensures Search(Patterns[0], pre + "youtube.com/watch?v=" + id + rest) == Some(id)
  {
    ScanWatchForm(pre, id, rest);
    PrefixesAndAnchors();
    SearchIsScan(Patterns[0], pre + "youtube.com/watch?v=" + id + rest);
  }

  lemma ScanWatchForm(pre: string, id: string, rest: string)
    requires 'y' !in pre && IsVideoId(id)
    requires forall j :: 0 <= j < |rest| ==> !StartsAt(rest, j, "&v=")
    ensures ScanFrom(Patterns[0], pre + "youtube.com/watch?v=" + id + rest, 0) == Some(id)
  {
    var a := Patterns[0].anchor;
    var query := "v=" + id + rest;
    var url := pre + a + query;
    assert pre + "youtube.com/watch?v=" + id + rest == url;
    var e := |pre| + |a|;
    assert url[e..] == query;
    WatchTailAt(url, e, id, rest);
    ScanWatchAnchored(pre, query);
  }

  /** After text without a `y`, the watch anchor and a query whose tail matches, the scan takes that match. */
  lemma ScanWatchAnchored(pre: string, query: string)
    requires 'y' !in pre
    requires WatchTail(pre + Patterns[0].anchor + query, |pre| + |Patterns[0].anchor|).Some?
    ensures ScanFrom(Patterns[0], pre + Patterns[0].anchor + query, 0) ==
      WatchTail(pre + Patterns[0].anchor + query, |pre| + |Patterns[0].anchor|)
  {
    var p := Patterns[0];
    var url := pre + p.anchor + query;
    var e := |pre| + |p.anchor|;
    PrefixesAndAnchors();
    assert url[..|pre|] == pre;
    ScanPastPlainText(p, url, pre);
    assert StartsAt(url, |pre|, p.anchor) by {
      assert url[|pre|..e] == p.anchor;
    }
  }

  /** `v=`, a token and text without `&v=`, read after the query mark: the token is the result. */
  lemma WatchTailAt(s: string, e: nat, id: string, rest: string)
    requires e <= |s| && s[e..] == "v=" + id + rest
    requires IsVideoId(id)
    requires forall j :: 0 <= j < |rest| ==> !StartsAt(rest, j, "&v=")
    ensures WatchTail(s, e) == Some(id)
  {
    var lim := LineEnd(s, e);
    var t0 := e + 2 + IdLength;
    assert s[e..e + 2] == "v=";
    assert s[e + 2..t0] == id;
    assert s[t0..] == rest;
    forall j | e <= j < lim
      ensures !AmpParam(s, j)
    {
      if j < t0 {
        assert s[j] != '&' by {
          if j >= e + 2 {
            assert s[j] == id[j - e - 2];
          }
        }
      } else {
        var t := j - t0;
        assert !StartsAt(rest, t, "&v=");
        if j + 3 <= |s| {
          assert s[j..j + 3] == rest[t..t + 3];
          assert s[j..j + 3] == [s[j]] + s[j + 1..j + 3];
        }
      }
    }
    AmpScanNone(s, e, lim);
    assert VParam(s, e) == Some(id);
  }

  /**
   * Other query parameters may come before `v=`: with `&v=<token>` after any text `q` on the
   * same line, and no later `&v=`, that token is the result, whatever `q` holds.
   */
  lemma WatchTailLastParam(s: string, e: nat, q: string, id: string, rest: string)
    requires e <= |s| && s[e..] == q + "&v=" + id + rest
    requires '\n' !in q && IsVideoId(id)
    requires forall j :: 0 <= j < |rest| ==> !StartsAt(rest, j, "&v=")
    ensures WatchTail(s, e) == Some(id)
  {
    var amp := e + |q|;
    var t0 := amp + 3 + IdLength;
    assert s[e..amp] == q;
    assert s[amp..amp + 3] == "&v=";
    assert s[amp + 3..t0] == id;
    assert s[t0..] == rest;
    var lim := LineEnd(s, e);
    assert amp < lim by {
      forall j | e <= j <= amp
        ensures s[j] != '\n'
      {
        if j < amp {
          assert s[j] == q[j - e];
          assert q[j - e] in q;
        }
      }
    }
    assert VParam(s, amp + 1) == Some(id) by {
      assert s[amp + 1..amp + 3] == "v=";
    }
    assert AmpParam(s, amp);
    forall j | amp < j < lim
      ensures !AmpParam(s, j)
    {
      if j < t0 {
        assert s[j] != '&' by {
          if j >= amp + 3 {
            assert s[j] == id[j - amp - 3];
          }
        }
      } else {
        var t := j - t0;
        assert !StartsAt(rest, t, "&v=");
        if j + 3 <= |s| {
          assert s[j..j + 3] == rest[t..t + 3];
          assert s[j..j + 3] == [s[j]] + s[j + 1..j + 3];
        }
      }
    }
    AmpScanLast(s, e, lim, amp);
  }

  /** With several `v=` parameters on the line, the last one preceded by `&` is taken. */
  lemma ExtractWatchLastParam(pre: string, q: string, id: string, rest: string)
    requires 'y' !in pre && '\n' !in q && IsVideoId(id)
    requires forall j :: 0 <= j < |rest| ==> !StartsAt(rest, j, "&v=")
    ensures ExtractVideoId(pre + "youtube.com/watch?" + q + "&v=" + id + rest) == Some(id)
  {
    var p := Patterns[0];
    var query := q + "&v=" + id + rest;
    var url := pre + p.anchor + query;
    assert pre + "youtube.com/watch?" + q + "&v=" + id + rest == url;
    var e := |pre| + |p.anchor|;
    assert url[e..] == query;
    WatchTailLastParam(url, e, q, id, rest);
    ScanWatchAnchored(pre, query);
    PrefixesAndAnchors();
    SearchIsScan(p, url);
  }

  /** The ordering of the loop: a form whose URL holds no anchor of an earlier pattern gives its token. */
  lemma ExtractBareForm(k: nat, pre: string, id: string, rest: string)
    requires 1 <= k < |Patterns|
    requires 'y' !in pre && IsVideoId(id)
    requires var url := pre + Patterns[k].anchor + id + rest;
      forall k', q :: 0 <= k' < k && 0 <= q <= |url| ==> !StartsAt(url, q, Patterns[k'].anchor)
    ensures ExtractVideoId(pre + Patterns[k].anchor + id + rest) == Some(id)
  {
    var url := pre + Patterns[k].anchor + id + rest;
    PrefixesAndAnchors();
    forall k' | 0 <= k' < k
      ensures Search(Patterns[k'], url).None?
    {
      SearchIsScan(Patterns[k'], url);
      ScanSkip(Patterns[k'], url, 0, |url|);
    }
    SearchBareForm(Patterns[k], pre, id, rest);
    FirstMatchAt(Patterns, url, k);
  }

  /** `FirstMatch` returns the result of the first pattern that matches. */
  lemma {:induction false} FirstMatchAt(ps: seq<Pattern>, url: string, k: nat)
    requires k < |ps| && Search(ps[k], url).Some?
    requires forall j :: 0 <= j < k ==> Search(ps[j], url).None?
    ensures FirstMatch(ps, url) == Search(ps[k], url)
  {
    if k > 0 {
      FirstMatchAt(ps[1..], url, k - 1);
    }
  }

  /**
   * The loop of `extract_video_id` returns the token of the first pattern, in list order,
   * that matches anywhere in the URL, and `None` only when no pattern matches.
   */
  lemma {:induction false} FirstMatchSpec(ps: seq<Pattern>, url: string)
    ensures FirstMatch(ps, url).Some? ==> exists k :: (0 <= k < |ps| && Search(ps[k], url) == FirstMatch(ps, url) &&
      forall j :: 0 <= j < k ==> Search(ps[j], url).None?)
    ensures FirstMatch(ps, url).None? ==> forall k :: 0 <= k < |ps| ==> Search(ps[k], url).None?
  {
    if ps != [] && Search(ps[0], url).None? {
      FirstMatchSpec(ps[1..], url);
      if FirstMatch(ps, url).Some? {
        var k :| 0 <= k < |ps| - 1 && Search(ps[1..][k], url) == FirstMatch(ps, url) &&
          forall j :: 0 <= j < k ==> Search(ps[1..][j], url).None?;
        assert Search(ps[k + 1], url) == FirstMatch(ps, url);
      }
    }
  }

  lemma ExtractWatchForm(pre: string, id: string, rest: string)
    requires 'y' !in pre && IsVideoId(id)
    requires forall j :: 0 <= j < |rest| ==> !StartsAt(rest, j, "&v=")
    ensures ExtractVideoId(pre + "youtube.com/watch?v=" + id + rest) == Some(id)
  {
    SearchWatchForm(pre, id, rest);
  }

  /** `https://www.youtube.com/watch?v=ABCDEFGHIJK&t=5s` gives `ABCDEFGHIJK`. */
  lemma ExtractWatchExample(scheme: string, id: string, query: string)
    requires scheme == "https://www." && id == "ABCDEFGHIJK" && query == "&t=5s"
    ensures ExtractVideoId(scheme + "youtube.com/watch?v=" + id + query) == Some("ABCDEFGHIJK")
  {
    assert forall j :: 0 <= j < |query| ==> !StartsAt(query, j, "&v=") by {
      forall j | 0 <= j < |query|
        ensures !StartsAt(query, j, "&v=")
      {
        if j == 0 {
          assert query[1] != 'v';
        } else {
          assert query[j] != '&';
        }
      }
    }
    assert IsVideoId(id);
    assert 'y' !in scheme;
    ExtractWatchForm(scheme, id, query);
  }

  /** A literal holding a character the text lacks occurs nowhere in it. */
  lemma AbsentChar(s: string, lit: string, c: char)
    requires c in lit && c !in s
    ensures forall q :: 0 <= q <= |s| ==> !StartsAt(s, q, lit)
  {
    var k :| 0 <= k < |lit| && lit[k] == c;
    forall q | 0 <= q <= |s|
      ensures !StartsAt(s, q, lit)
    {
      if q + |lit| <= |s| {
        assert s[q + k] in s;
        assert s[q..q + |lit|][k] == s[q + k];
      }
    }
  }

  /** A `youtu.be/` link with no `?` anywhere (no query string) gives its token. */
  lemma ExtractShortForm(pre: string, id: string, rest: string)
    requires 'y' !in pre && '?' !in pre && '?' !in rest && IsVideoId(id)
    ensures ExtractVideoId(pre + "youtu.be/" + id + rest) == Some(id)
  {
    var url := pre + "youtu.be/" + id + rest;
    assert '?' !in url by {
      assert '?' !in "youtu.be/";
      assert !IsIdChar('?');
    }
    assert '?' in Patterns[0].anchor;
    AbsentChar(url, Patterns[0].anchor, '?');
    ExtractBareForm(1, pre, id, rest);
  }
}
