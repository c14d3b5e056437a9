/** The compact audio player: its track list and playback flags, the
    `m:ss` time labels, the wave the playhead travels along, and the
    updates the audio element's events cause. Decoding and playing audio,
    the wave's vertical shape and the DOM are not modelled; the values the
    audio element reports come in as inputs. */
module CompactPlayer {
  import opened Decimal
  import opened Optional
  import opened Arith

  // ---------------------------------------------------------------------
  // Time labels
  // ---------------------------------------------------------------------

  /** `formatTime`: whole minutes, a colon, and the remaining seconds padded
      to two digits. */
  function FormatTime(seconds: nat): (t: string)
    ensures |t| >= 4 && t[|t| - 3] == ':'
    ensures AllDigits(t[..|t| - 3]) && AllDigits(t[|t| - 2..])
  {
    var m, ss := NatToString(seconds / 60), PadStart(NatToString(seconds % 60), 2, '0');
    SecondsField(seconds);
    LabelShape(m, ss);
    m + ":" + ss
  }

  /** Minutes, a colon and two digits make a label of the `m:ss` shape. */
  lemma LabelShape(m: string, ss: string)
    requires |m| > 0 && AllDigits(m) && |ss| == 2 && AllDigits(ss)
    ensures var t := m + ":" + ss;
            |t| >= 4 && t[|t| - 3] == ':' && t[..|t| - 3] == m && t[|t| - 2..] == ss
  {
  }

  /** Reads an `m:ss` label: a non-empty run of digits for the minutes, a
      colon, and exactly two digits below 60 for the seconds. */
  function ParseTime(t: string): (r: Option<nat>)
    ensures r.Some? ==> |t| >= 4 && t[|t| - 3] == ':'
  {
    if |t| < 4 || t[|t| - 3] != ':' then None
    else
      var m, ss := t[..|t| - 3], t[|t| - 2..];
      if AllDigits(m) && AllDigits(ss) && Value(ss) < 60 then Some(Value(m) * 60 + Value(ss)) else None
  }

  /** The seconds part of a label is the remainder padded to two digits. */
  lemma SecondsField(s: nat)
    ensures var ss := PadStart(NatToString(s % 60), 2, '0');
            |ss| == 2 && AllDigits(ss) && Value(ss) == s % 60
  {
    var n := s % 60;
    ValueOfNatToString(n);
    if n < 10 {
      assert PadStart(NatToString(n), 2, '0') == "0" + NatToString(n);
      LeadingZero(NatToString(n));
    }
  }

  /** Every label reads back as the number of seconds it was made from, so
      `minutes * 60 + seconds` recovers the input and no two inputs share
      a label. */
  lemma ParseFormatTime(s: nat)
    ensures ParseTime(FormatTime(s)) == Some(s)
  {
    var m, ss := NatToString(s / 60), PadStart(NatToString(s % 60), 2, '0');
    SecondsField(s);
    ValueOfNatToString(s / 60);
    assert Value(m) * 60 + Value(ss) == s;
    ParseLabel(FormatTime(s), m, ss, s);
  }

  /** A label assembled from digit runs reads back as minutes and seconds. */
  lemma ParseLabel(t: string, m: string, ss: string, v: nat)
    requires t == m + ":" + ss
    requires |m| > 0 && |ss| == 2 && AllDigits(m) && AllDigits(ss) && Value(ss) < 60
    requires Value(m) * 60 + Value(ss) == v
    ensures ParseTime(t) == Some(v)
  {
    assert t[..|t| - 3] == m && t[|t| - 2..] == ss;
    assert ParseTime(t).Some? && ParseTime(t).value == v;
  }

  lemma FormatTimeInjective(s1: nat, s2: nat)
    requires FormatTime(s1) == FormatTime(s2)
    ensures s1 == s2
  {
    ParseFormatTime(s1);
    ParseFormatTime(s2);
  }

  // ---------------------------------------------------------------------
  // Player state
  // ---------------------------------------------------------------------

  datatype Track = Track(title: string, artist: string, duration: int, src: string)

  datatype Player = Player(
    isPlaying: bool,
    currentTime: int,
    totalTime: int,
    isLooping: bool,
    tracks: seq<Track>,
    currentTrack: int)

  /** There is a track list and the current index points into it. */
  predicate Valid(p: Player) {
    |p.tracks| > 0 && 0 <= p.currentTrack < |p.tracks|
  }

  /** The constructor: one track, paused at 0, looping. */
  function NewPlayer(src: string): (p: Player)
    ensures Valid(p) && |p.tracks| == 1 && p.currentTrack == 0
    ensures !p.isPlaying && p.isLooping && p.currentTime == 0 && p.totalTime == 0
  {
    Player(false, 0, 0, true, [Track("Audio recordings", "You", 0, src)], 0)
  }

  /** `loadTrack` once its 300 ms timer has run: paused, positioned a third
      of the way into the known total time. */
  function LoadTrack(p: Player): (r: Player)
    ensures !r.isPlaying && 3 * r.currentTime <= r.totalTime < 3 * r.currentTime + 3
    ensures r.(currentTime := p.currentTime, isPlaying := p.isPlaying) == p
  {
    p.(currentTime := p.totalTime / 3, isPlaying := false)
  }

  /** `nextTrack`: one step forward round the list, then `loadTrack`. */
  function NextTrack(p: Player): (r: Player)
    requires Valid(p)
    ensures Valid(r) && r.tracks == p.tracks
    ensures r.currentTrack == if p.currentTrack == |p.tracks| - 1 then 0 else p.currentTrack + 1
    ensures !r.isPlaying && r.totalTime == p.totalTime && r.isLooping == p.isLooping
    ensures r.currentTime == p.totalTime / 3
  {
    LoadTrack(p.(currentTrack := (p.currentTrack + 1) % |p.tracks|))
  }

  /** `previousTrack`: one step back round the list, then `loadTrack`. */
  function PreviousTrack(p: Player): (r: Player)
    requires Valid(p)
    ensures Valid(r) && r.tracks == p.tracks
    ensures r.currentTrack == if p.currentTrack == 0 then |p.tracks| - 1 else p.currentTrack - 1
    ensures !r.isPlaying && r.totalTime == p.totalTime && r.isLooping == p.isLooping
    ensures r.currentTime == p.totalTime / 3
  {
    LoadTrack(p.(currentTrack := (p.currentTrack - 1 + |p.tracks|) % |p.tracks|))
  }

  /** Going back undoes going forward and the other way round; what is
      left is the reload. */
  lemma PreviousUndoesNext(p: Player)
    requires Valid(p)
    ensures PreviousTrack(NextTrack(p)) == LoadTrack(p)
    ensures NextTrack(PreviousTrack(p)) == LoadTrack(p)
  {
  }

  /** One step round a cycle of `n` from `c % n` is `(c + 1) % n`. */
  lemma ModStep(c: int, n: int)
    requires n > 0
    ensures (if c % n == n - 1 then 0 else c % n + 1) == (c + 1) % n
  {
    if c % n == n - 1 {
      ModUnique(c + 1, n, c / n + 1, 0);
    } else {
      ModUnique(c + 1, n, c / n, c % n + 1);
    }
  }

  /** `k` calls of `nextTrack` in a row land `k` places further round the
      list. */
  function NextTimes(p: Player, k: nat): (r: Player)
    requires Valid(p)
    ensures Valid(r) && r.tracks == p.tracks
    ensures r.currentTrack == (p.currentTrack + k) % |p.tracks|
    decreases k
  {
    if k == 0 then
      ModUnique(p.currentTrack, |p.tracks|, 0, p.currentTrack);
      p
    else
      var q := NextTimes(p, k - 1);
      ModStep(p.currentTrack + k - 1, |p.tracks|);
      NextTrack(q)
  }

  /** `toggleLoop`: the flag flips and the new value is returned. */
  function ToggleLoop(p: Player): (r: (Player, bool))
    ensures r.1 == r.0.isLooping && r.1 != p.isLooping
    ensures r.0.(isLooping := p.isLooping) == p
  {
    var q := p.(isLooping := !p.isLooping);
    (q, q.isLooping)
  }

  /** Two toggles restore the player. */
  lemma ToggleLoopTwice(p: Player)
    ensures ToggleLoop(ToggleLoop(p).0).0 == p
  {
  }

  /** `togglePlayPause`: the flag flips and nothing else changes. */
  function TogglePlayPause(p: Player): (r: Player)
    ensures r.isPlaying != p.isPlaying
    ensures r.(isPlaying := p.isPlaying) == p
  {
    p.(isPlaying := !p.isPlaying)
  }

  /** The `catch` of the play promise: playback refused, so not playing. */
  function PlaybackRejected(p: Player): (r: Player)
    ensures !r.isPlaying && r.(isPlaying := p.isPlaying) == p
  {
    p.(isPlaying := false)
  }

  /** Two toggles restore the player. */
  lemma TogglePlayPauseTwice(p: Player)
    ensures TogglePlayPause(TogglePlayPause(p)) == p
  {
  }

  /** The `ended` event. Looping: back to the start of the same track, still
      playing if it was. Otherwise: on to the next track, paused. */
  function Ended(p: Player): (r: Player)
    requires Valid(p)
    ensures Valid(r) && r.tracks == p.tracks && r.isLooping == p.isLooping
    ensures p.isLooping ==> r.currentTime == 0 && r.currentTrack == p.currentTrack && r.isPlaying == p.isPlaying
    ensures !p.isLooping ==> r == NextTrack(p)
  {
    if p.isLooping then p.(currentTime := 0) else NextTrack(p)
  }

  /** The `loadedmetadata` event with the decoded duration: the total time
      is the whole seconds of it, the current track records it, and the
      position is a third of the way in, rounded down. */
  function LoadedMetadata(p: Player, duration: real): (r: Player)
    requires Valid(p) && duration >= 0.0
    ensures Valid(r) && r.currentTrack == p.currentTrack && |r.tracks| == |p.tracks|
    ensures r.totalTime as real <= duration < r.totalTime as real + 1.0
    ensures r.tracks[r.currentTrack].duration == r.totalTime
    ensures forall i :: 0 <= i < |p.tracks| && i != p.currentTrack ==> r.tracks[i] == p.tracks[i]
    ensures 3 * r.currentTime <= r.totalTime < 3 * r.currentTime + 3
    ensures r.isPlaying == p.isPlaying && r.isLooping == p.isLooping
  {
    var total := duration.Floor;
    var t := p.tracks[p.currentTrack];
    p.(totalTime := total,
       tracks := p.tracks[p.currentTrack := t.(duration := total)],
       currentTime := (total as real / 3.0).Floor)
  }

  // ---------------------------------------------------------------------
  // The wave and the playhead
  // ---------------------------------------------------------------------

  /** A vertex of the wave path. */
  datatype WavePoint = WavePoint(x: int, y: real)

  const MinWaveWidth := 60
  const MinWaveHeight := 20
  const WaveStep := 2

  /** The drawing area: at least 60 by 20. */
  function WaveBox(containerWidth: int, containerHeight: int): (r: (int, int))
    ensures r.0 >= MinWaveWidth && r.0 >= containerWidth && (r.0 == MinWaveWidth || r.0 == containerWidth)
    ensures r.1 >= MinWaveHeight && r.1 >= containerHeight && (r.1 == MinWaveHeight || r.1 == containerHeight)
  {
    (if containerWidth > MinWaveWidth then containerWidth else MinWaveWidth,
     if containerHeight > MinWaveHeight then containerHeight else MinWaveHeight)
  }

  /** The vertex loop of `initializeWaves`: one vertex every two units from
      0 to the width inclusive, its height given by `waveY(x, width)`. */
  method WaveGrid(containerWidth: int, waveY: (int, int) -> real) returns (points: seq<WavePoint>)
    ensures var width := WaveBox(containerWidth, 0).0;
            |points| == width / 2 + 1 &&
            forall i :: 0 <= i < |points| ==> points[i] == WavePoint(2 * i, waveY(2 * i, width))
    ensures forall i :: 0 <= i < |points| ==> 0 <= points[i].x <= WaveBox(containerWidth, 0).0
    ensures forall i, j :: 0 <= i < j < |points| ==> points[i].x < points[j].x
  {
    var width := WaveBox(containerWidth, 0).0;
    points := [];
    var x := 0;
    while x <= width
      invariant x == 2 * |points| && x <= width + 2
      invariant forall i :: 0 <= i < |points| ==> points[i] == WavePoint(2 * i, waveY(2 * i, width))
      decreases width - x
    {
      points := points + [WavePoint(x, waveY(x, width))];
      x := x + WaveStep;
    }
  }

  /** The playback fraction: current over total time, 0 while the total
      is unknown. */
  function Progress(currentTime: int, totalTime: int): (r: real)
    ensures totalTime > 0 ==> r * totalTime as real == currentTime as real
    ensures totalTime <= 0 ==> r == 0.0
    ensures totalTime > 0 && 0 <= currentTime <= totalTime ==> 0.0 <= r <= 1.0
  {
    if totalTime > 0 then currentTime as real / totalTime as real else 0.0
  }

  function Distance(p: WavePoint, targetX: real): real {
    Abs(p.x as real - targetX)
  }

  /** `i` is the first vertex among those nearest to `targetX`. */
  predicate FirstNearest(points: seq<WavePoint>, targetX: real, i: int) {
    && 0 <= i < |points|
    && (forall j :: 0 <= j < |points| ==> Distance(points[i], targetX) <= Distance(points[j], targetX))
    && (forall j :: 0 <= j < i ==> Distance(points[i], targetX) < Distance(points[j], targetX))
  }

  /** The playhead search of `updateWaveProgress`: a running minimum that
      moves only on a strictly smaller distance, so ties keep the earlier
      vertex. */
  method ClosestPoint(points: seq<WavePoint>, targetX: real) returns (best: nat)
    requires |points| > 0
    ensures FirstNearest(points, targetX, best)
  {
    best := 0;
    var minDistance := Distance(points[0], targetX);
    var i := 1;
    while i < |points|
      invariant 1 <= i <= |points| && best < i
      invariant minDistance == Distance(points[best], targetX)
      invariant forall j :: 0 <= j < i ==> minDistance <= Distance(points[j], targetX)
      invariant forall j :: 0 <= j < best ==> minDistance < Distance(points[j], targetX)
    {
      var distance := Distance(points[i], targetX);
      if distance < minDistance {
        minDistance := distance;
        best := i;
      }
      i := i + 1;
    }
  }

  /** The first nearest vertex is unique. */
  lemma FirstNearestUnique(points: seq<WavePoint>, targetX: real, i: int, j: int)
    requires FirstNearest(points, targetX, i) && FirstNearest(points, targetX, j)
    ensures i == j
  {
    assert Distance(points[i], targetX) == Distance(points[j], targetX);
  }

  /** On the wave grid the playhead lands within one unit of its target,
      for any target from 0 up to one unit past the last vertex. */
  lemma NearestOnGridWithinOne(points: seq<WavePoint>, targetX: real, best: int)
    requires |points| > 0
    requires forall i :: 0 <= i < |points| ==> points[i].x == 2 * i
    requires 0.0 <= targetX <= (2 * (|points| - 1) + 1) as real
    requires FirstNearest(points, targetX, best)
    ensures Distance(points[best], targetX) <= 1.0
  {
    var last := |points| - 1;
    if targetX >= (2 * last) as real {
      assert Distance(points[last], targetX) <= 1.0;
    } else {
      var j := (targetX / 2.0).Floor;
      assert 0 <= j < last;
      if targetX - (2 * j) as real <= 1.0 {
        assert Distance(points[j], targetX) <= 1.0;
      } else {
        assert Distance(points[j + 1], targetX) <= 1.0;
      }
    }
  }

  /** Proof helper for `ScaledWithin`: a fraction of a non-negative value
      lies between zero and that value. */
  lemma RealProductBounds(f: real, w: real)
    requires 0.0 <= f <= 1.0 && w >= 0.0
    ensures 0.0 <= f * w <= w
  {
    assert w - f * w == (1.0 - f) * w;
  }

  /** Proof helper for `TargetWithinGrid`: scaling by a fraction keeps a
      value under any bound it was under. */
  lemma ScaledWithin(f: real, w: real, b: real)
    requires 0.0 <= f <= 1.0 && 0.0 <= w <= b
    ensures 0.0 <= f * w <= b
  {
    RealProductBounds(f, w);
  }

  /** A target scaled by the raw container width never passes one unit
      beyond the last vertex of the widened grid. */
  lemma TargetWithinGrid(containerWidth: nat, n: nat, progress: real)
    requires n == WaveBox(containerWidth, 0).0 / 2 + 1
    requires 0.0 <= progress <= 1.0
    ensures 0.0 <= progress * (containerWidth as real) <= (2 * (n - 1) + 1) as real
  {
    GridCoversWidth(containerWidth, n);
    ScaledWithin(progress, containerWidth as real, (2 * (n - 1) + 1) as real);
  }

  /** The widened grid reaches at least one unit short of the container's
      width. */
  lemma GridCoversWidth(containerWidth: nat, n: nat)
    requires n == WaveBox(containerWidth, 0).0 / 2 + 1
    ensures containerWidth <= 2 * (n - 1) + 1
  {
    var width := WaveBox(containerWidth, 0).0;
    assert width == 2 * (width / 2) + width % 2;
  }

  /** The playhead as `updateWaveProgress` places it: the target is the
      progress times the raw container width, while the grid spans the
      widened drawing area; the playhead still lands within one unit. */
  lemma PlayheadNearTarget(containerWidth: nat, points: seq<WavePoint>, progress: real, best: int)
    requires |points| == WaveBox(containerWidth, 0).0 / 2 + 1
    requires forall i :: 0 <= i < |points| ==> points[i].x == 2 * i
    requires 0.0 <= progress <= 1.0
    requires FirstNearest(points, progress * (containerWidth as real), best)
    ensures Distance(points[best], progress * (containerWidth as real)) <= 1.0
  {
    TargetWithinGrid(containerWidth, |points|, progress);
    NearestOnGridWithinOne(points, progress * (containerWidth as real), best);
  }
}
