/** A text burst: a random sample of the text points is released as
    particles in small batches, one batch every 60 ms.

    `createTextBurst` reorders the point list with a random comparator and takes a
    prefix; the reordering is modelled as any permutation the caller
    supplies, and the timers as the delay each batch is scheduled with. */
module TextBurst {
  import opened TextMask
  import opened ParticlePool

  /** At most this many points are released per burst. */
  const SampleCount := 120
  const BatchSize := 8
  /** The gap between two consecutive batches, in milliseconds. */
  const BatchGapMs := 60
  /** Each particle is scattered by up to half of this around its point. */
  const Spread := 25.0

  /** One timer: the points it releases and when. */
  datatype Batch = Batch(delayMs: nat, points: seq<Point>)

  /** The batches of `sample`, the first being the `k`-th of the burst:
      consecutive slices of eight (the last one possibly shorter), the
      `j`-th scheduled at `(k + j) * 60` ms. */
  function Batches(sample: seq<Point>, k: nat): (bs: seq<Batch>)
    ensures |bs| == (|sample| + BatchSize - 1) / BatchSize
    ensures forall j :: 0 <= j < |bs| ==> bs[j].delayMs == (k + j) * BatchGapMs
    decreases |sample|
  {
    if |sample| == 0 then []
    else
      var n := Min(BatchSize, |sample|);
      [Batch(k * BatchGapMs, sample[..n])] + Batches(sample[n..], k + 1)
  }

  /** Batch `j` holds the slice `[8j, 8j + 8)` of the sample, cut short at
      its end: the slices the loop of `createTextBurst` takes at `i = 0, 8, 16, ...`. */
  lemma {:induction false} BatchSlices(sample: seq<Point>, k: nat)
    ensures forall j :: 0 <= j < |Batches(sample, k)| ==>
              Batches(sample, k)[j].points == sample[BatchSize * j .. Min(BatchSize * j + BatchSize, |sample|)]
    decreases |sample|
  {
    if |sample| > 0 {
      var n := Min(BatchSize, |sample|);
      var bs, rest := Batches(sample, k), Batches(sample[n..], k + 1);
      BatchSlices(sample[n..], k + 1);
      assert bs == [Batch(k * BatchGapMs, sample[..n])] + rest;
      forall j | 1 <= j < |bs|
        ensures bs[j].points == sample[BatchSize * j .. Min(BatchSize * j + BatchSize, |sample|)]
      {
        assert n == BatchSize;
        assert bs[j] == rest[j - 1];
        assert sample[n..][BatchSize * (j - 1) .. Min(BatchSize * (j - 1) + BatchSize, |sample| - n)]
            == sample[BatchSize * j .. Min(BatchSize * j + BatchSize, |sample|)];
      }
    }
  }

  /** Concatenation of the batches' points. */
  function Flatten(bs: seq<Batch>): seq<Point> {
    if |bs| == 0 then [] else bs[0].points + Flatten(bs[1..])
  }

  /** The batches cover the sample exactly once and in order. */
  lemma {:induction false} BatchesCover(sample: seq<Point>, k: nat)
    ensures Flatten(Batches(sample, k)) == sample
    decreases |sample|
  {
    if |sample| > 0 {
      var n := Min(BatchSize, |sample|);
      BatchesCover(sample[n..], k + 1);
      var bs := Batches(sample, k);
      assert bs[1..] == Batches(sample[n..], k + 1);
      assert sample == sample[..n] + sample[n..];
    }
  }

  /** Every batch holds between one and eight points, and only the last
      may hold fewer than eight. */
  lemma BatchSizes(sample: seq<Point>, k: nat)
    ensures forall j :: 0 <= j < |Batches(sample, k)| ==> 1 <= |Batches(sample, k)[j].points| <= BatchSize
    ensures forall j :: 0 <= j < |Batches(sample, k)| - 1 ==> |Batches(sample, k)[j].points| == BatchSize
  {
  }

  /** The permutation the random-comparator sort leaves in the point list. */
  predicate IsShuffleOf(shuffled: seq<Point>, points: seq<Point>) {
    multiset(shuffled) == multiset(points)
  }

  /** `createTextBurst`. With no text points nothing is scheduled and the
      list is untouched. Otherwise the sort rearranges the list in place,
      the first `min(120, n)` points of the rearranged list form the sample,
      and the sample is cut into batches of eight, batch `k` scheduled at
      `k * 60` ms. Returns the point list after the call and the batches. */
  function CreateTextBurst(textPoints: seq<Point>, shuffled: seq<Point>): (r: (seq<Point>, seq<Batch>))
    requires IsShuffleOf(shuffled, textPoints)
    ensures |textPoints| == 0 ==> r.0 == textPoints && r.1 == []
    ensures IsShuffleOf(r.0, textPoints) && |r.0| == |textPoints|
    ensures |textPoints| > 0 ==> r.0 == shuffled
    ensures forall j :: 0 <= j < |r.1| ==> r.1[j].delayMs == j * BatchGapMs
    ensures |Flatten(r.1)| == Min(SampleCount, |textPoints|)
    ensures multiset(Flatten(r.1)) <= multiset(textPoints)
    ensures Flatten(r.1) == r.0[..Min(SampleCount, |textPoints|)]
    ensures |r.1| == (Min(SampleCount, |textPoints|) + BatchSize - 1) / BatchSize
    ensures forall j :: 0 <= j < |r.1| ==> 1 <= |r.1[j].points| <= BatchSize
    ensures forall j :: 0 <= j < |r.1| - 1 ==> |r.1[j].points| == BatchSize
    ensures forall j :: 0 <= j < |r.1| ==>
              r.1[j].points == r.0[BatchSize * j .. Min(BatchSize * j + BatchSize, Min(SampleCount, |textPoints|))]
  {
    if |textPoints| == 0 then (textPoints, [])
    else
      assert |shuffled| == |multiset(shuffled)| == |textPoints|;
      var sample := shuffled[..Min(SampleCount, |shuffled|)];
      BatchesCover(sample, 0);
      BatchSizes(sample, 0);
      BatchSlices(sample, 0);
      assert forall j :: 0 <= j < |Batches(sample, 0)| ==>
        sample[BatchSize * j .. Min(BatchSize * j + BatchSize, |sample|)]
          == shuffled[BatchSize * j .. Min(BatchSize * j + BatchSize, |sample|)];
      assert shuffled == sample + shuffled[|sample|..];
      (shuffled, Batches(sample, 0))
  }

  /** The random numbers one particle of a batch consumes: its two spreads
      and its variant. */
  datatype Draw = Draw(spreadX: real, spreadY: real, variant: real)

  /** The particle requests of one batch: each point scattered by
      `(rand - 0.5) * 25` on each axis. */
  function BatchRequests(points: seq<Point>, draws: seq<Draw>): (reqs: seq<TextRequest>)
    requires |draws| == |points|
    ensures |reqs| == |points|
    ensures forall i :: 0 <= i < |points| && 0.0 <= draws[i].spreadX <= 1.0 ==>
              -Spread / 2.0 <= reqs[i].x - points[i].x <= Spread / 2.0
    ensures forall i :: 0 <= i < |points| && 0.0 <= draws[i].spreadY <= 1.0 ==>
              -Spread / 2.0 <= reqs[i].y - points[i].y <= Spread / 2.0
    ensures forall i :: 0 <= i < |points| ==> reqs[i].rand == draws[i].variant
  {
    seq(|points|, i requires 0 <= i < |points| =>
      TextRequest(points[i].x + (draws[i].spreadX - 0.5) * Spread,
                  points[i].y + (draws[i].spreadY - 0.5) * Spread,
                  draws[i].variant))
  }

  /** A batch's timer firing: each of its points asks the pool for a text
      particle. With `f` free slots exactly `min(f, |batch|)` particles
      appear and displayed particles are left alone. */
  function FireBatch(pool: seq<Slot>, b: Batch, draws: seq<Draw>): (r: (seq<Slot>, nat))
    requires |draws| == |b.points|
    ensures |r.0| == |pool|
    ensures r.1 == Min(|b.points|, |pool| - ActiveCount(pool))
    ensures ActiveCount(r.0) == ActiveCount(pool) + r.1
    ensures forall j :: 0 <= j < |pool| && pool[j].shown ==> r.0[j] == pool[j]
  {
    EmitText(pool, BatchRequests(b.points, draws))
  }
}
