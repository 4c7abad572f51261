/** The pure parts of the video player (src/components/video-player.tsx): the
    video id taken from an embed URL, the `m:ss` time label, and the decision
    each one-second tracking tick makes. The YouTube player, the DOM and the
    interval timer are outside the model: a tick is given the current time and
    duration the player reported. */
module VideoPlayer {
  import opened Text
  import opened JsNumber

  /** The regular expression `/embed\/([^?]+)/` matches at position i: the text
      `embed/` followed by at least one character other than `?`. */
  predicate MatchAt(url: string, i: int) {
    0 <= i && i + 7 <= |url| && url[i..i + 6] == "embed/" && url[i + 6] != '?'
  }

  /** The leftmost match position, or `|url|` when there is none. */
  function FirstMatchFrom(url: string, from: nat): (k: nat)
    requires from <= |url|
    ensures from <= k <= |url|
    ensures k < |url| ==> MatchAt(url, k)
    ensures forall j :: from <= j < k ==> !MatchAt(url, j)
    ensures k == |url| ==> forall j :: from <= j < |url| ==> !MatchAt(url, j)
    decreases |url| - from
  {
    if from == |url| then from
    else if MatchAt(url, from) then from
    else FirstMatchFrom(url, from + 1)
  }

  /** The greedy `[^?]+`: the longest prefix without `?`. */
  function UpToQuery(s: string): (r: string)
    ensures |r| <= |s| && r == s[..|r|]
    ensures '?' !in r
    ensures |r| == |s| || s[|r|] == '?'
  {
    if s == [] || s[0] == '?' then []
    else [s[0]] + UpToQuery(s[1..])
  }

  /** `getYouTubeVideoId`: the first capture group of the leftmost match, or
      the empty string when nothing matches. The id never contains `?`, is
      non-empty exactly when some position matches, and runs from just after
      the leftmost `embed/` up to the next `?` or the end. */
  function GetYouTubeVideoId(url: string): (id: string)
    ensures '?' !in id
    ensures id == [] <==> forall i :: 0 <= i < |url| ==> !MatchAt(url, i)
    ensures id != [] ==>
              var k := FirstMatchFrom(url, 0);
              && k + 6 + |id| <= |url|
              && url[k + 6..k + 6 + |id|] == id
              && (k + 6 + |id| == |url| || url[k + 6 + |id|] == '?')
  {
    var k := FirstMatchFrom(url, 0);
    if k == |url| then []
    else
      var id := UpToQuery(url[k + 6..]);
      assert id != [] by { assert url[k + 6..][0] == url[k + 6]; }
      assert url[k + 6..][..|id|] == url[k + 6..k + 6 + |id|];
      id
  }

  /** An embed URL with a single match yields exactly the id between `embed/`
      and the query string, whatever the query string holds. */
  lemma {:induction false} IdOfEmbedUrl(prefix: string, id: string, query: string)
    requires id != [] && '?' !in id
    requires query == [] || query[0] == '?'
    requires forall j :: 0 <= j < |prefix| ==> !MatchAt(prefix + "embed/" + id + query, j)
    ensures GetYouTubeVideoId(prefix + "embed/" + id + query) == id
  {
    var url := prefix + "embed/" + id + query;
    var k := |prefix|;
    assert url[k..k + 6] == "embed/" && url[k + 6] == id[0];
    assert MatchAt(url, k);
    FirstMatchAt(url, k);
    assert url[k + 6..] == id + query;
    UpToQueryStopsAtQuery(id, query);
  }

  lemma FirstMatchAt(url: string, k: nat)
    requires k < |url| && MatchAt(url, k)
    requires forall j :: 0 <= j < k ==> !MatchAt(url, j)
    ensures FirstMatchFrom(url, 0) == k
  {
    var f := FirstMatchFrom(url, 0);
    assert !(f < k);
    assert !(k < f);
  }

  lemma {:induction false} UpToQueryStopsAtQuery(id: string, query: string)
    requires '?' !in id
    requires query == [] || query[0] == '?'
    ensures UpToQuery(id + query) == id
  {
    if id == [] {
      assert id + query == query;
    } else {
      UpToQueryStopsAtQuery(id[1..], query);
      assert (id + query)[1..] == id[1..] + query;
    }
  }

  /** JavaScript's `a % b` for a positive divisor: the remainder takes the sign
      of the dividend (truncated division). */
  function JsRem(a: real, b: real): real
    requires b > 0.0
  {
    var q := a / b;
    var t := if q >= 0.0 then q.Floor else -((-q).Floor);
    a - b * t as real
  }

  /** `formatTime`: floored minutes, a colon, and the floored remainder of the
      seconds padded to two characters. */
  function FormatTime(seconds: real): string {
    var minutes := (seconds / 60.0).Floor;
    var remaining := JsRem(seconds, 60.0).Floor;
    IntStr(minutes) + ":" + PadStart2(IntStr(remaining))
  }

  /** For a non-negative time the label is the whole minutes, a colon, and
      exactly two digits reading a number below 60; reading both fields back
      gives the whole seconds. */
  lemma FormatTimeFields(seconds: real)
    requires seconds >= 0.0
    ensures var t := FormatTime(seconds);
            var n := seconds.Floor;
            && |t| >= 4 && t[|t| - 3] == ':'
            && AllDigits(t[..|t| - 3]) && AllDigits(t[|t| - 2..])
            && ParseNat(t[|t| - 2..]) < 60
            && ParseNat(t[..|t| - 3]) * 60 + ParseNat(t[|t| - 2..]) == n
  {
    var n := seconds.Floor;
    var q, r := n / 60, n % 60;
    var mm, ss := NatStr(q), PadStart2(NatStr(r));
    FormatTimeSplit(seconds, q, r);
    TwoDigitField(r);
    ParseNatStr(q);
    LabelFields(mm, ss);
  }

  /** For a non-negative time the label is the minutes and the two-character
      seconds field of ⌊s⌋ = 60q + r around a colon. */
  lemma FormatTimeSplit(seconds: real, q: int, r: int)
    requires seconds >= 0.0 && q == seconds.Floor / 60 && r == seconds.Floor % 60
    ensures q >= 0 && 0 <= r < 60
    ensures FormatTime(seconds) == NatStr(q) + ":" + PadStart2(NatStr(r))
  {
    FloorDivision(seconds, seconds.Floor, q, r);
  }

  /** A label `mm:ss` with a two-character `ss` splits back at its third-last character. */
  lemma LabelFields(mm: string, ss: string)
    requires |mm| >= 1 && |ss| == 2
    ensures var t := mm + ":" + ss;
            && |t| >= 4 && t[|t| - 3] == ':'
            && t[..|t| - 3] == mm && t[|t| - 2..] == ss
  {
    var t := mm + ":" + ss;
    assert t[..|t| - 3] == mm;
    assert t[|t| - 2..] == ss;
  }

  /** With n = ⌊s⌋ = 60q + r and s ≥ 0, the minutes and the remainder the label
      uses are q and r. */
  lemma FloorDivision(s: real, n: int, q: int, r: int)
    requires s >= 0.0 && n == s.Floor && q == n / 60 && r == n % 60
    ensures (s / 60.0).Floor == q && q >= 0
    ensures JsRem(s, 60.0).Floor == r
  {
    var x := s / 60.0;
    var qr := q as real;
    assert n == 60 * q + r && 0 <= r < 60 && q >= 0;
    assert 60.0 * qr <= s < 60.0 * qr + 60.0 by {
      assert n as real <= s < n as real + 1.0;
      assert n as real == 60.0 * qr + r as real;
    }
    assert qr <= x < qr + 1.0;
    assert x.Floor == q;
    assert JsRem(s, 60.0) == s - 60.0 * qr;
    assert r as real <= s - 60.0 * qr < r as real + 1.0 by {
      assert n as real <= s < n as real + 1.0;
      assert n as real == 60.0 * qr + r as real;
    }
  }

  /** `remainingSeconds.toString().padStart(2, '0')` for 0 ≤ r < 60 is two
      digits reading r. */
  lemma TwoDigitField(r: int)
    requires 0 <= r < 60
    ensures |PadStart2(NatStr(r))| == 2 && AllDigits(PadStart2(NatStr(r)))
    ensures ParseNat(PadStart2(NatStr(r))) == r
  {
    ParseNatStr(r);
    if r < 10 {
      var d := NatStr(r);
      assert PadStart2(d) == ['0'] + d;
      assert (['0'] + d)[..1] == ['0'];
    } else {
      assert NatStr(r) == NatStr(r / 10) + [DigitChar(r % 10)];
    }
  }

  /** What one tracking tick does: reports the percentage watched and calls
      `onComplete` when it is at least 90. */
  datatype Tick = Tick(reported: Num, completes: bool)

  /** One tick for the current time and the duration the player reports. With
      a positive duration `onComplete` fires from 90% of it on; with a zero
      duration the percentage is Infinity (fires) once playback has moved and
      NaN (does not fire) at time 0. */
  function TrackTick(currentTime: real, duration: real): (t: Tick)
    ensures t.reported == Percent(currentTime, duration)
    ensures duration > 0.0 ==> (t.completes <==> 100.0 * currentTime >= 90.0 * duration)
    ensures duration == 0.0 ==> (t.completes <==> currentTime > 0.0)
  {
    var p := Percent(currentTime, duration);
    if duration > 0.0 then
      PercentAtLeast(currentTime, duration, 90.0);
      Tick(p, AtLeast(p, 90.0))
    else Tick(p, AtLeast(p, 90.0))
  }

  /** How many times `onComplete` is called over a run of ticks, each given as
      (current time, duration). */
  function CompletionCalls(ticks: seq<(real, real)>): nat {
    if ticks == [] then 0
    else CompletionCalls(ticks[..|ticks| - 1]) +
         (if TrackTick(ticks[|ticks| - 1].0, ticks[|ticks| - 1].1).completes then 1 else 0)
  }

  /** `onComplete` is not called once but on every tick past the threshold:
      with a fixed positive duration and every tick at 90% or more, the number
      of calls equals the number of ticks. */
  lemma {:induction false} CompletesOnEveryLateTick(ticks: seq<(real, real)>, duration: real)
    requires duration > 0.0
    requires forall i :: 0 <= i < |ticks| ==> ticks[i].1 == duration && 100.0 * ticks[i].0 >= 90.0 * duration
    ensures CompletionCalls(ticks) == |ticks|
  {
    if ticks != [] {
      CompletesOnEveryLateTick(ticks[..|ticks| - 1], duration);
    }
  }
}
