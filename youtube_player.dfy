// The match video player (frontend/src/components/YouTubePlayer.js): the
// video id is the run of characters that follows the last marker of the
// first line (`youtu.be/` with any character for the dot, `v/`, `u/` plus a
// word character and `/`, `embed/`, `watch?v=` or `&v=`) and stops before
// '#', '&' or '?'; it is kept only when it is 11 characters long, and the
// player embeds https://www.youtube.com/embed/<id>?rel=0.
module YouTubePlayer {
  import opened Common

  /** The length of the marker `youtu.be/`, `v/`, `u/\w/`, `embed/`,
      `watch?v=` or `&v=` that starts at `p`, if one does. The markers
      start with different characters, so at most one applies. */
  function MarkerLen(s: string, p: nat): (r: Option<nat>)
    ensures r.Some? ==> 0 < r.value && p + r.value <= |s|
  {
    if p >= |s| then None
    else if s[p] == 'y' && p + 9 <= |s| && s[p..p + 5] == "youtu" && !IsLineTerminator(s[p + 5]) && s[p + 6..p + 9] == "be/" then Some(9)
    else if s[p] == 'v' && p + 2 <= |s| && s[p + 1] == '/' then Some(2)
    else if s[p] == 'u' && p + 4 <= |s| && s[p + 1] == '/' && IsWordChar(s[p + 2]) && s[p + 3] == '/' then Some(4)
    else if s[p] == 'e' && p + 6 <= |s| && s[p..p + 6] == "embed/" then Some(6)
    else if s[p] == 'w' && p + 8 <= |s| && s[p..p + 8] == "watch?v=" then Some(8)
    else if s[p] == '&' && p + 3 <= |s| && s[p..p + 3] == "&v=" then Some(3)
    else None
  }

  /** Every marker holds a '/' or an '&', except `watch?v=`, which holds
      "?v". */
  lemma MarkerNeedsPunctuation(s: string, q: nat)
    requires MarkerLen(s, q).Some?
    ensures || (exists k :: q <= k < q + MarkerLen(s, q).value && (s[k] == '/' || s[k] == '&'))
            || (q + 6 < |s| && s[q + 5] == '?' && s[q + 6] == 'v')
  {
    var len := MarkerLen(s, q).value;
    if s[q] == 'y' {
      assert s[q + 6..q + 9][2] == s[q + 8];
    } else if s[q] == 'e' {
      assert s[q..q + 6][5] == s[q + 5];
    } else if s[q] == 'w' {
      assert s[q..q + 8][5] == s[q + 5] && s[q..q + 8][6] == s[q + 6];
    }
  }

  /** Where no '/' or '&' and no "?v" occurs from `q` on, no marker starts. */
  lemma NoMarkerWithoutPunctuation(s: string, q: nat)
    requires forall k :: q <= k < |s| ==> s[k] != '/' && s[k] != '&'
    requires forall k :: q <= k && k + 1 < |s| ==> !(s[k] == '?' && s[k + 1] == 'v')
    ensures MarkerLen(s, q).None?
  {
    if MarkerLen(s, q).Some? {
      MarkerNeedsPunctuation(s, q);
    }
  }

  /** The last marker that starts at or before `p`. */
  function LastMarker(s: string, p: nat): (r: Option<nat>)
    ensures r.Some? ==> r.value <= p && MarkerLen(s, r.value).Some?
                        && forall q :: r.value < q <= p ==> MarkerLen(s, q).None?
    ensures r.None? ==> forall q :: 0 <= q <= p ==> MarkerLen(s, q).None?
  {
    if MarkerLen(s, p).Some? then Some(p)
    else if p == 0 then None
    else LastMarker(s, p - 1)
  }

  /** Where the first line ends: `.` does not cross a line terminator. */
  function LineEnd(s: string): (n: nat)
    ensures n <= |s| && forall k :: 0 <= k < n ==> !IsLineTerminator(s[k])
    ensures n < |s| ==> IsLineTerminator(s[n])
  {
    if s == [] || IsLineTerminator(s[0]) then 0 else 1 + LineEnd(s[1..])
  }

  /** The characters `[^#&?]` stops at. */
  predicate Stop(c: char) {
    c == '#' || c == '&' || c == '?'
  }

  /** `([^#&?]*)` from `j`: the longest run without a stop character. */
  function IdRun(s: string, j: nat): (r: string)
    requires j <= |s|
    ensures j + |r| <= |s| && r == s[j..j + |r|]
    ensures forall k :: 0 <= k < |r| ==> !Stop(r[k])
    ensures j + |r| == |s| || Stop(s[j + |r|])
    decreases |s| - j
  {
    if j == |s| || Stop(s[j]) then [] else [s[j]] + IdRun(s, j + 1)
  }

  /** `getVideoId`. The greedy `^.*` backs off from the end of the first
      line, so the marker used is the last one that starts on it; the id is
      the run after that marker, accepted only at length 11. */
  function GetVideoId(url: string): (r: Option<string>)
    ensures r.Some? ==> |r.value| == 11 && forall k :: 0 <= k < 11 ==> !Stop(r.value[k])
  {
    var m := LastMarker(url, LineEnd(url));
    if m.None? then None else IdAfter(url, m.value)
  }

  /** The run after the marker at `m`, kept when it has 11 characters. */
  function IdAfter(url: string, m: nat): (r: Option<string>)
    requires MarkerLen(url, m).Some?
  {
    var id := IdRun(url, m + MarkerLen(url, m).value);
    if |id| == 11 then Some(id) else None
  }

  /** A URL whose first line holds no marker has no id. */
  lemma NoMarkerNoId(url: string)
    requires forall q :: 0 <= q <= LineEnd(url) ==> MarkerLen(url, q).None?
    ensures GetVideoId(url).None?
  {
    if MarkerLen(url, LineEnd(url)).None? && LineEnd(url) > 0 {
      NoMarkerUpTo(url, LineEnd(url) - 1);
    }
  }

  /** Without a marker up to `p`, none is found there. */
  lemma {:induction false} NoMarkerUpTo(s: string, p: nat)
    requires forall q :: 0 <= q <= p ==> MarkerLen(s, q).None?
    ensures LastMarker(s, p).None?
  {
    if p > 0 {
      NoMarkerUpTo(s, p - 1);
    }
  }

  const EmbedPrefix := "https://www.youtube.com/embed/"

  /** The `src` of the embedded player. */
  function EmbedSrc(id: string): (r: string)
    ensures |r| == |EmbedPrefix| + |id| + 6
    ensures r[..|EmbedPrefix|] == EmbedPrefix && r[|EmbedPrefix|..|EmbedPrefix| + |id|] == id
    ensures r[|EmbedPrefix| + |id|..] == "?rel=0"
  {
    EmbedPrefix + id + "?rel=0"
  }

  /** What the component renders: nothing for a falsy URL or a URL without
      an id, else the player for that id. */
  function PlayerSource(videoUrl: Option<string>): (r: Option<string>)
    ensures !Present(videoUrl) ==> r.None?
    ensures Present(videoUrl) ==>
              (r.Some? <==> GetVideoId(videoUrl.value).Some?)
              && (r.Some? ==> r.value == EmbedSrc(GetVideoId(videoUrl.value).value))
  {
    if !Present(videoUrl) then None
    else
      var videoId := GetVideoId(videoUrl.value);
      if videoId.Some? && Present(videoId) then Some(EmbedSrc(videoId.value)) else None
  }

  /** The characters of a YouTube video id. */
  predicate IdChar(c: char) {
    IsWordChar(c) || c == '-'
  }

  /** When the marker at `p` is the last one and the URL is one line, the
      run after it is the id. */
  lemma ExtractAfterMarker(s: string, p: nat, id: string)
    requires MarkerLen(s, p).Some?
    requires forall k :: 0 <= k < |s| ==> !IsLineTerminator(s[k])
    requires forall q :: p < q <= |s| ==> MarkerLen(s, q).None?
    requires IdRun(s, p + MarkerLen(s, p).value) == id
    ensures GetVideoId(s) == if |id| == 11 then Some(id) else None
  {
    OneLine(s);
    LastMarkerAt(s, p, |s|);
    IdAtLastMarker(s, p);
  }

  /** `getVideoId` once its marker is known. */
  lemma IdAtLastMarker(s: string, p: nat)
    requires LastMarker(s, LineEnd(s)) == Some(p)
    ensures MarkerLen(s, p).Some? && GetVideoId(s) == IdAfter(s, p)
  {
  }

  /** A string without line terminators is all first line. */
  lemma OneLine(s: string)
    requires forall k :: 0 <= k < |s| ==> !IsLineTerminator(s[k])
    ensures LineEnd(s) == |s|
  {
  }

  /** A marker at `p` with none after it up to `e` is the last one. */
  lemma {:induction false} LastMarkerAt(s: string, p: nat, e: nat)
    requires p <= e && MarkerLen(s, p).Some?
    requires forall q :: p < q <= e ==> MarkerLen(s, q).None?
    ensures LastMarker(s, e) == Some(p)
    decreases e
  {
    if e > p {
      LastMarkerAt(s, p, e - 1);
    }
  }

  /** The run after position `j` when `s` holds `id` there, followed by the
      end or by a stop character. */
  lemma RunIsId(s: string, j: nat, id: string)
    requires j + |id| <= |s| && s[j..j + |id|] == id
    requires forall k :: 0 <= k < |id| ==> IdChar(id[k])
    requires j + |id| == |s| || Stop(s[j + |id|])
    ensures IdRun(s, j) == id
    decreases |id|
  {
    if id != [] {
      assert s[j] == id[0];
      assert s[j + 1..j + |id|] == id[1..];
      RunIsId(s, j + 1, id[1..]);
    }
  }

  /** Where no '/', '&' or '?' occurs from `from` on, no marker starts
      there. */
  lemma NoMarkerInTail(s: string, from: nat)
    requires forall k :: from <= k < |s| ==> s[k] != '/' && s[k] != '&' && s[k] != '?'
    ensures forall q :: from <= q <= |s| ==> MarkerLen(s, q).None?
  {
    forall q | from <= q <= |s|
      ensures MarkerLen(s, q).None?
    {
      NoMarkerWithoutPunctuation(s, q);
    }
  }

  /** Two lines without terminators join into one. */
  lemma ConcatOneLine(a: string, b: string)
    requires forall k :: 0 <= k < |a| ==> !IsLineTerminator(a[k])
    requires forall k :: 0 <= k < |b| ==> !IsLineTerminator(b[k])
    ensures forall k :: 0 <= k < |a + b| ==> !IsLineTerminator((a + b)[k])
  {
    forall k | 0 <= k < |a + b|
      ensures !IsLineTerminator((a + b)[k])
    {
      if k >= |a| {
        assert (a + b)[k] == b[k - |a|];
      }
    }
  }

  /** The fixed URL prefixes hold no line terminator. */
  lemma PrefixesOneLine()
    ensures forall k :: 0 <= k < |EmbedPrefix| ==> !IsLineTerminator(EmbedPrefix[k])
    ensures forall k :: 0 <= k < |WatchPrefix| ==> !IsLineTerminator(WatchPrefix[k])
    ensures forall k :: 0 <= k < |ShortPrefix| ==> !IsLineTerminator(ShortPrefix[k])
    ensures forall k :: 0 <= k < |"?rel=0"| ==> !IsLineTerminator("?rel=0"[k])
  {
  }

  /** The player's own embed URL gives its id back: rendering the embed
      URL of a video shows that same video. */
  lemma EmbedRoundTrip(id: string)
    requires |id| == 11 && forall k :: 0 <= k < |id| ==> IdChar(id[k])
    ensures GetVideoId(EmbedSrc(id)) == Some(id)
    ensures PlayerSource(Some(EmbedSrc(id))) == Some(EmbedSrc(id))
  {
    EmbedGetsId(id);
  }

  lemma EmbedGetsId(id: string)
    requires |id| == 11 && forall k :: 0 <= k < |id| ==> IdChar(id[k])
    ensures GetVideoId(EmbedSrc(id)) == Some(id)
  {
    var s := EmbedSrc(id);
    assert s[24..30] == "embed/";
    assert MarkerLen(s, 24) == Some(6);
    assert s[41] == '?';
    EmbedNoLaterMarker(id);
    EmbedOneLine(id);
    RunIsId(s, 30, id);
    ExtractAfterMarker(s, 24, id);
  }

  /** No character of an embed URL ends a line. */
  lemma EmbedOneLine(id: string)
    requires forall k :: 0 <= k < |id| ==> IdChar(id[k])
    ensures forall k :: 0 <= k < |EmbedSrc(id)| ==> !IsLineTerminator(EmbedSrc(id)[k])
  {
    PrefixesOneLine();
    ConcatOneLine(EmbedPrefix, id);
    ConcatOneLine(EmbedPrefix + id, "?rel=0");
    assert EmbedSrc(id) == EmbedPrefix + id + "?rel=0";
  }

  /** The `embed/` of an embed URL is its last marker. */
  lemma EmbedNoLaterMarker(id: string)
    requires |id| == 11 && forall k :: 0 <= k < |id| ==> IdChar(id[k])
    ensures forall q :: 24 < q <= |EmbedSrc(id)| ==> MarkerLen(EmbedSrc(id), q).None?
  {
    var s := EmbedSrc(id);
    assert s[25..30] == "mbed/";
    forall q | 24 < q < 30
      ensures MarkerLen(s, q).None?
    {
      assert s[q] == "mbed/"[q - 25];
      if q == 27 {
        assert s[28] == 'd';
      }
    }
    forall k | 30 <= k < |s|
      ensures s[k] != '/' && s[k] != '&'
      ensures k + 1 < |s| ==> !(s[k] == '?' && s[k + 1] == 'v')
    {
      if k >= 41 {
        assert s[k] == s[41..][k - 41];
        assert s[41..] == "?rel=0";
      } else {
        assert s[k] == id[k - 30];
      }
    }
    forall q | 30 <= q <= |s|
      ensures MarkerLen(s, q).None?
    {
      NoMarkerWithoutPunctuation(s, q);
    }
  }

  const WatchPrefix := "https://www.youtube.com/watch?v="

  /** The id of a watch URL is the one it was made from. */
  lemma WatchRoundTrip(id: string)
    requires forall k :: 0 <= k < |id| ==> IdChar(id[k])
    ensures GetVideoId(WatchPrefix + id) == if |id| == 11 then Some(id) else None
  {
    var s := WatchPrefix + id;
    assert s[24..32] == "watch?v=";
    assert MarkerLen(s, 24) == Some(8);
    WatchNoLaterMarker(id);
    PrefixesOneLine();
    IdAtEnd(WatchPrefix, id, 24);
  }

  /** A one-line prefix whose last marker ends it, then an id: the id is
      read back. */
  lemma IdAtEnd(prefix: string, id: string, p: nat)
    requires forall k :: 0 <= k < |prefix| ==> !IsLineTerminator(prefix[k])
    requires forall k :: 0 <= k < |id| ==> IdChar(id[k])
    requires MarkerLen(prefix + id, p).Some? && p + MarkerLen(prefix + id, p).value == |prefix|
    requires forall q :: p < q <= |prefix + id| ==> MarkerLen(prefix + id, q).None?
    ensures GetVideoId(prefix + id) == if |id| == 11 then Some(id) else None
  {
    var s := prefix + id;
    ConcatOneLine(prefix, id);
    assert s[|prefix|..|prefix| + |id|] == id;
    RunIsId(s, |prefix|, id);
    ExtractAfterMarker(s, p, id);
  }

  /** The `watch?v=` of a watch URL is its last marker. */
  lemma WatchNoLaterMarker(id: string)
    requires forall k :: 0 <= k < |id| ==> IdChar(id[k])
    ensures forall q :: 24 < q <= |WatchPrefix + id| ==> MarkerLen(WatchPrefix + id, q).None?
  {
    var s := WatchPrefix + id;
    assert s[25..31] == "atch?v";
    forall q | 24 < q < 31
      ensures MarkerLen(s, q).None?
    {
      assert s[q] == "atch?v"[q - 25];
      if q == 30 {
        assert s[31] == '=';
      }
    }
    forall k | 31 <= k < |s|
      ensures s[k] != '/' && s[k] != '&' && s[k] != '?'
    {
      if k >= 32 {
        assert s[k] == id[k - 32];
      }
    }
    NoMarkerInTail(s, 31);
  }

  const ShortPrefix := "https://youtu.be/"

  /** The id of a short youtu.be URL is the one it was made from. */
  lemma ShortRoundTrip(id: string)
    requires forall k :: 0 <= k < |id| ==> IdChar(id[k])
    ensures GetVideoId(ShortPrefix + id) == if |id| == 11 then Some(id) else None
  {
    var s := ShortPrefix + id;
    assert s[8..13] == "youtu" && s[14..17] == "be/" && s[13] == '.';
    assert MarkerLen(s, 8) == Some(9);
    ShortNoLaterMarker(id);
    PrefixesOneLine();
    IdAtEnd(ShortPrefix, id, 8);
  }

  /** The `youtu.be/` of a short URL is its last marker. */
  lemma ShortNoLaterMarker(id: string)
    requires forall k :: 0 <= k < |id| ==> IdChar(id[k])
    ensures forall q :: 8 < q <= |ShortPrefix + id| ==> MarkerLen(ShortPrefix + id, q).None?
  {
    var s := ShortPrefix + id;
    assert s[9..17] == "outu.be/";
    forall q | 8 < q < 17
      ensures MarkerLen(s, q).None?
    {
      assert s[q] == "outu.be/"[q - 9];
      if q == 10 || q == 12 {
        assert s[11] == 't' && s[13] == '.';
      } else if q == 15 {
        assert s[16] == '/';
      }
    }
    forall k | 17 <= k < |s|
      ensures s[k] != '/' && s[k] != '&' && s[k] != '?'
    {
      assert s[k] == id[k - 17];
    }
    NoMarkerInTail(s, 17);
  }

  /** A later marker wins: with a `v/` path after a watch query, the id is
      taken after the `v/`. */
  lemma LastMarkerWins(id1: string, id2: string)
    requires |id1| == 11 && forall k :: 0 <= k < |id1| ==> IdChar(id1[k])
    requires |id2| == 11 && forall k :: 0 <= k < |id2| ==> IdChar(id2[k])
    ensures GetVideoId("watch?v=" + id1 + "#v/" + id2) == Some(id2)
  {
    var s := "watch?v=" + id1 + "#v/" + id2;
    var p := 20;
    assert s[19..22] == "#v/" && s[22..] == id2;
    assert MarkerLen(s, p) == Some(2);
    forall k | 0 <= k < |s|
      ensures !IsLineTerminator(s[k])
    {
      if k >= 22 {
        assert s[k] == id2[k - 22];
      } else if k >= 19 {
        assert s[k] == "#v/"[k - 19];
      } else if k >= 8 {
        assert s[k] == id1[k - 8];
      } else {
        assert s[k] == "watch?v="[k];
      }
    }
    forall q | p < q <= |s|
      ensures MarkerLen(s, q).None?
    {
      if q == 21 {
        assert s[21] == '/';
      } else {
        forall k | 22 <= k < |s|
          ensures s[k] != '/' && s[k] != '&' && s[k] != '?'
        {
          assert s[k] == id2[k - 22];
        }
        NoMarkerWithoutPunctuation(s, q);
      }
    }
    RunIsId(s, 22, id2);
    ExtractAfterMarker(s, p, id2);
  }
}
