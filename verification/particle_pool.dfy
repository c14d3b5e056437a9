/** The fixed pool of particle elements behind the "magic dust" effect.

    Every slot is one pre-built element. A slot is free while its display
    is "none"; emitting a particle takes the lowest free slot, shows it
    with a class list and a position, and the slot becomes free again only
    when the particle's timeline completes (`Release`). A request that finds
    no free slot is dropped. The timelines themselves (durations, easing,
    drift) are not modelled; randomness comes in as numbers in [0, 1). */
module ParticlePool {
  import opened Optional

  const MaxParticles := 900
  /** Viewports at most this wide get no particles at all. */
  const NarrowViewport := 320

  // ---------------------------------------------------------------------
  // Visual variants
  // ---------------------------------------------------------------------

  datatype Variant = Tiny | Plain | Medium | Sparkle | BlueSparkle | PinkSparkle

  /** The variant's CSS class; the plain variant has none. */
  function VariantName(v: Variant): string {
    match v
    case Tiny => "tiny"
    case Plain => ""
    case Medium => "medium"
    case Sparkle => "sparkle"
    case BlueSparkle => "blue-sparkle"
    case PinkSparkle => "pink-sparkle"
  }

  /** The class list written to a particle when it is emitted. */
  function ClassName(v: Variant): string {
    "magic-particle " + VariantName(v)
  }

  /** The class list identifies the variant. */
  lemma ClassNameInjective(v: Variant, w: Variant)
    requires ClassName(v) == ClassName(w)
    ensures v == w
  {
    var prefix := "magic-particle ";
    assert ClassName(v)[|prefix|..] == VariantName(v);
    assert ClassName(w)[|prefix|..] == VariantName(w);
    assert VariantName(v) == VariantName(w);
    assert VariantName(BlueSparkle)[0] != VariantName(PinkSparkle)[0];
  }

  /** The lower end of the range of random numbers that picks `v` for a
      text particle. */
  function BucketLow(v: Variant): real {
    match v
    case Tiny => 0.0
    case Plain => 0.2
    case Medium => 0.5
    case Sparkle => 0.7
    case BlueSparkle => 0.85
    case PinkSparkle => 0.93
  }

  /** The upper end (exclusive) of that range. */
  function BucketHigh(v: Variant): real {
    match v
    case Tiny => 0.2
    case Plain => 0.5
    case Medium => 0.7
    case Sparkle => 0.85
    case BlueSparkle => 0.93
    case PinkSparkle => 1.0
  }

  /** The six text-particle variants in the order of their buckets. */
  const TextOrder: seq<Variant> := [Tiny, Plain, Medium, Sparkle, BlueSparkle, PinkSparkle]

  /** The buckets tile [0, 1) without gaps or overlaps, so each variant is
      drawn with probability `BucketHigh - BucketLow`. */
  lemma BucketsTileUnitInterval()
    ensures BucketLow(TextOrder[0]) == 0.0 && BucketHigh(TextOrder[|TextOrder| - 1]) == 1.0
    ensures forall i :: 0 <= i < |TextOrder| - 1 ==> BucketHigh(TextOrder[i]) == BucketLow(TextOrder[i + 1])
    ensures forall i :: 0 <= i < |TextOrder| ==> BucketLow(TextOrder[i]) < BucketHigh(TextOrder[i])
  {
  }

  /** The variant chain of `createTextParticle`: the variant whose bucket
      contains the random number. */
  function TextVariant(rand: real): (v: Variant)
    ensures 0.0 <= rand < 1.0 ==> BucketLow(v) <= rand < BucketHigh(v)
  {
    if rand < 0.2 then Tiny
    else if rand < 0.5 then Plain
    else if rand < 0.7 then Medium
    else if rand < 0.85 then Sparkle
    else if rand < 0.93 then BlueSparkle
    else PinkSparkle
  }

  /** Only the variant whose bucket holds the number is chosen. */
  lemma TextVariantExactBucket(rand: real, v: Variant)
    requires 0.0 <= rand < 1.0
    ensures TextVariant(rand) == v <==> BucketLow(v) <= rand < BucketHigh(v)
  {
  }

  /** The four variants of ambient particles, indexed by a quarter of [0, 1). */
  const AmbientTypes: seq<Variant> := [Tiny, Plain, Medium, Sparkle]

  /** `types[Math.floor(Math.random() * types.length)]`: the index stays in
      range and each quarter of [0, 1) picks its own variant. */
  function AmbientVariant(rand: real): (v: Variant)
    requires 0.0 <= rand < 1.0
    ensures forall k :: 0 <= k < |AmbientTypes| ==>
              (v == AmbientTypes[k] <==> k as real <= rand * 4.0 < k as real + 1.0)
  {
    var k := (rand * 4.0).Floor;
    assert 0 <= k < 4;
    AmbientTypes[k]
  }

  // ---------------------------------------------------------------------
  // The pool
  // ---------------------------------------------------------------------

  /** One pooled element: displayed or free, its class list, its position. */
  datatype Slot = Slot(shown: bool, className: string, x: real, y: real)

  const FreshSlot := Slot(false, "magic-particle", 0.0, 0.0)

  /** The number of displayed slots. */
  function ActiveCount(pool: seq<Slot>): (n: nat)
    ensures n <= |pool|
    decreases |pool|
  {
    if |pool| == 0 then 0 else (if pool[0].shown then 1 else 0) + ActiveCount(pool[1..])
  }

  /** Replacing one slot changes the count by the change in that slot. */
  lemma {:induction false} ActiveCountUpdate(pool: seq<Slot>, i: nat, s: Slot)
    requires i < |pool|
    ensures ActiveCount(pool[i := s]) ==
            ActiveCount(pool) - (if pool[i].shown then 1 else 0) + (if s.shown then 1 else 0)
    decreases |pool|
  {
    if i == 0 {
      assert pool[i := s][1..] == pool[1..];
    } else {
      assert pool[i := s][1..] == pool[1..][i - 1 := s];
      ActiveCountUpdate(pool[1..], i - 1, s);
    }
  }

  /** The pool is full exactly when every slot is displayed. */
  lemma {:induction false} FullIffAllShown(pool: seq<Slot>)
    ensures ActiveCount(pool) == |pool| <==> forall j :: 0 <= j < |pool| ==> pool[j].shown
    decreases |pool|
  {
    if |pool| > 0 {
      FullIffAllShown(pool[1..]);
      if forall j :: 0 <= j < |pool[1..]| ==> pool[1..][j].shown {
        if pool[0].shown {
          forall j | 0 <= j < |pool| ensures pool[j].shown {
            if j > 0 { assert pool[j] == pool[1..][j - 1]; }
          }
        }
      }
    }
  }

  /** `createParticlePool`, together with the constructor's early exits:
      no pool on a mobile device or without a particle field, an empty pool
      on a narrow viewport, and otherwise 900 free slots. */
  function CreatePool(isMobile: bool, hasField: bool, innerWidth: int): (pool: seq<Slot>)
    ensures |pool| == 0 <==> isMobile || !hasField || innerWidth <= NarrowViewport
    ensures |pool| == 0 || |pool| == MaxParticles
    ensures forall i :: 0 <= i < |pool| ==> !pool[i].shown
  {
    if isMobile || !hasField || innerWidth <= NarrowViewport then [] else seq(MaxParticles, _ => FreshSlot)
  }

  /** A freshly built pool has nothing on screen. */
  lemma {:induction false} NoneShownMeansIdle(pool: seq<Slot>)
    requires forall i :: 0 <= i < |pool| ==> !pool[i].shown
    ensures ActiveCount(pool) == 0
    decreases |pool|
  {
    if |pool| > 0 {
      assert forall i :: 0 <= i < |pool[1..]| ==> !pool[1..][i].shown by {
        forall i | 0 <= i < |pool[1..]| ensures !pool[1..][i].shown {
          assert pool[1..][i] == pool[i + 1];
        }
      }
      NoneShownMeansIdle(pool[1..]);
    }
  }

  /** `i` is the slot `find` returns: free, with every slot before it
      displayed. */
  predicate LowestFree(pool: seq<Slot>, i: nat) {
    i < |pool| && !pool[i].shown && forall j :: 0 <= j < i ==> pool[j].shown
  }

  /** `particles.find(p => p.style.display === "none")`. */
  function FirstFree(pool: seq<Slot>): (r: Option<nat>)
    ensures r.Some? ==> LowestFree(pool, r.value)
    ensures r.None? ==> forall j :: 0 <= j < |pool| ==> pool[j].shown
    decreases |pool|
  {
    if |pool| == 0 then None
    else if !pool[0].shown then Some(0)
    else match FirstFree(pool[1..])
      case None => None
      case Some(k) => Some(k + 1)
  }

  /** Taking a slot for a new particle: the lowest free slot is shown with
      the given class list at the given position and its index returned;
      with no free slot the request is dropped and the pool is unchanged.
      Displayed slots are never touched. */
  function Acquire(pool: seq<Slot>, className: string, x: real, y: real): (r: (seq<Slot>, Option<nat>))
    ensures |r.0| == |pool|
    ensures r.1.None? <==> ActiveCount(pool) == |pool|
    ensures r.1.None? ==> r.0 == pool
    ensures r.1.Some? ==> LowestFree(pool, r.1.value) && r.0[r.1.value] == Slot(true, className, x, y)
    ensures r.1.Some? ==> ActiveCount(r.0) == ActiveCount(pool) + 1
    ensures forall j :: 0 <= j < |pool| && (r.1.None? || j != r.1.value) ==> r.0[j] == pool[j]
  {
    FullIffAllShown(pool);
    match FirstFree(pool)
    case None => (pool, None)
    case Some(i) =>
      var s := Slot(true, className, x, y);
      ActiveCountUpdate(pool, i, s);
      (pool[i := s], Some(i))
  }

  /** The timeline's `onComplete`: the slot is hidden again and nothing else
      changes. */
  function Release(pool: seq<Slot>, i: nat): (r: seq<Slot>)
    requires i < |pool|
    ensures |r| == |pool| && !r[i].shown
    ensures forall j :: 0 <= j < |pool| && j != i ==> r[j] == pool[j]
    ensures ActiveCount(r) == ActiveCount(pool) - (if pool[i].shown then 1 else 0)
  {
    var s := pool[i].(shown := false);
    ActiveCountUpdate(pool, i, s);
    pool[i := s]
  }

  /** `createTextParticle(x, y)` with the variant drawn from `rand`. */
  function CreateTextParticle(pool: seq<Slot>, x: real, y: real, rand: real): (r: (seq<Slot>, Option<nat>))
    ensures r.1.Some? ==> r.1.value < |r.0| && r.0[r.1.value].className == ClassName(TextVariant(rand))
    ensures r.1.None? <==> ActiveCount(pool) == |pool|
    ensures |r.0| == |pool| && ActiveCount(r.0) == ActiveCount(pool) + (if r.1.Some? then 1 else 0)
  {
    Acquire(pool, ClassName(TextVariant(rand)), x, y)
  }

  /** `createParticle(x, y)`: a missing coordinate is drawn uniformly over
      the viewport, and the variant is one of the four ambient ones. */
  function CreateParticle(pool: seq<Slot>, x: Option<real>, y: Option<real>,
                          randX: real, randY: real, randType: real,
                          innerWidth: real, innerHeight: real): (r: (seq<Slot>, Option<nat>))
    requires 0.0 <= randType < 1.0
    ensures r.1.Some? ==> r.1.value < |r.0| && r.0[r.1.value].className in
                            {ClassName(Tiny), ClassName(Plain), ClassName(Medium), ClassName(Sparkle)}
    ensures r.1.Some? ==> r.0[r.1.value].x == (if x.Some? then x.value else randX * innerWidth)
    ensures r.1.Some? ==> r.0[r.1.value].y == (if y.Some? then y.value else randY * innerHeight)
    ensures r.1.None? <==> ActiveCount(pool) == |pool|
    ensures |r.0| == |pool| && ActiveCount(r.0) == ActiveCount(pool) + (if r.1.Some? then 1 else 0)
  {
    var px := match x case Some(v) => v case None => randX * innerWidth;
    var py := match y case Some(v) => v case None => randY * innerHeight;
    var v := AmbientVariant(randType);
    assert v in AmbientTypes;
    Acquire(pool, ClassName(v), px, py)
  }

  function Min(a: int, b: int): int {
    if a <= b then a else b
  }

  /** One text-particle request: the position and the variant's random number. */
  datatype TextRequest = TextRequest(x: real, y: real, rand: real)

  /** Several `createTextParticle` calls in a row with no release in
      between. With k free slots and m requests exactly min(k, m) are
      granted and the rest dropped; the pool never holds more than its
      capacity and displayed slots keep their particles. */
  function EmitText(pool: seq<Slot>, reqs: seq<TextRequest>): (r: (seq<Slot>, nat))
    ensures |r.0| == |pool|
    ensures r.1 == Min(|reqs|, |pool| - ActiveCount(pool))
    ensures ActiveCount(r.0) == ActiveCount(pool) + r.1
    ensures forall j :: 0 <= j < |pool| && pool[j].shown ==> r.0[j] == pool[j]
    decreases |reqs|
  {
    if |reqs| == 0 then
      (pool, 0)
    else
      var (p1, slot) := CreateTextParticle(pool, reqs[0].x, reqs[0].y, reqs[0].rand);
      var (p2, n) := EmitText(p1, reqs[1..]);
      (p2, n + (if slot.Some? then 1 else 0))
  }

  /** Capacity 10 and 15 requests in one tick: 10 are granted, 5 dropped. */
  lemma TenOfFifteenGranted(pool: seq<Slot>, reqs: seq<TextRequest>)
    requires |pool| == 10 && ActiveCount(pool) == 0 && |reqs| == 15
    ensures EmitText(pool, reqs).1 == 10
    ensures |reqs| - EmitText(pool, reqs).1 == 5
  {
  }
}
