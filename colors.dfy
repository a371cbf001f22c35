/** LED colours for temperature and air quality: pkg/colors/colors.go, and the copies
    of the temperature ramp in temp_led.go and auto_led/main.go (other bounds). */
module Colors {

  /** A `uint8` channel intensity. */
  type Channel = x: int | 0 <= x < 256

  datatype Color = Color(r: Channel, g: Channel, b: Channel)

  const Purple: Color := Color(255, 0, 255)
  const Blue: Color := Color(0, 0, 255)
  const Cyan: Color := Color(0, 255, 255)
  const Green: Color := Color(0, 255, 0)
  const Yellow: Color := Color(255, 255, 0)
  const Red: Color := Color(255, 0, 0)
  const Orange: Color := Color(255, 127, 0)
  const Brown: Color := Color(126, 0, 35)

  /** The ramp anchors, coldest first (`definedColors` / `Colors`). */
  const DefinedColors: seq<Color> := [Purple, Blue, Cyan, Green, Yellow, Red]

  /** Brightness in percent; the ramp output is scaled by LedBrightness / 100. */
  const LedBrightness: int := 100

  /** Anchors spread evenly from minValue (anchor 0) to maxValue (last anchor). */
  datatype Ramp = Ramp(minValue: real, maxValue: real, anchors: seq<Color>)
  {
    predicate Valid() {
      minValue < maxValue && |anchors| >= 2
    }
  }

  /** minTemp = 8, maxTemp = 32 in pkg/colors/colors.go. */
  const RoomRamp: Ramp := Ramp(8.0, 32.0, DefinedColors)

  /** MinTemp = 12, MaxTemp = 25 in temp_led.go and auto_led/main.go. */
  const BedroomRamp: Ramp := Ramp(12.0, 25.0, DefinedColors)

  /** v lies between x and y, whichever of the two is larger. */
  predicate Between(v: int, x: int, y: int) {
    (x <= v <= y) || (y <= v <= x)
  }

  /** Every channel of c lies between the corresponding channels of c1 and c2. */
  predicate ColorBetween(c: Color, c1: Color, c2: Color) {
    Between(c.r, c1.r, c2.r) && Between(c.g, c1.g, c2.g) && Between(c.b, c1.b, c2.b)
  }

  /** The unrounded blend (1 - dx) * x + dx * y. */
  function Blend(x: int, y: int, dx: real): real {
    (1.0 - dx) * x as real + dx * y as real
  }

  /** A factor in [0, 1] shrinks a non-negative value. */
  lemma Shrink(x: real, s: real)
    requires 0.0 <= x && 0.0 <= s <= 1.0
    ensures 0.0 <= s * x <= x
    ensures x * s == s * x
  {
    assert x - s * x == (1.0 - s) * x;
  }

  lemma BlendBetween(x: int, y: int, dx: real)
    requires 0.0 <= dx <= 1.0
    ensures Between(Blend(x, y, dx).Floor, x, y)
  {
    var d := (y - x) as real;
    assert Blend(x, y, dx) == x as real + dx * d;
    if x <= y {
      Shrink(d, dx);
    } else {
      var e := (x - y) as real;
      Shrink(e, dx);
      assert dx * d == -(dx * e);
    }
  }

  /** interpolateV: blend two channel values; the float-to-uint8 conversion truncates. */
  function InterpolateV(x: Channel, y: Channel, dx: real): (v: Channel)
    requires 0.0 <= dx <= 1.0
    ensures Between(v, x, y)
    ensures dx == 0.0 ==> v == x
    ensures dx == 1.0 ==> v == y
  {
    BlendBetween(x, y, dx);
    Blend(x, y, dx).Floor
  }

  /** interpolate: channel-wise blend from c1 (dx = 0) towards c2 (dx = 1). */
  function Interpolate(c1: Color, c2: Color, dx: real): (c: Color)
    requires 0.0 <= dx <= 1.0
    ensures ColorBetween(c, c1, c2)
    ensures dx == 0.0 ==> c == c1
    ensures dx == 1.0 ==> c == c2
  {
    Color(InterpolateV(c1.r, c2.r, dx), InterpolateV(c1.g, c2.g, dx), InterpolateV(c1.b, c2.b, dx))
  }

  /** One channel scaled by s and truncated back to uint8. */
  function Scale(v: Channel, s: real): (w: Channel)
    requires 0.0 <= s <= 1.0
    ensures w <= v
    ensures s == 1.0 ==> w == v
  {
    Shrink(v as real, s);
    var p := v as real * s;
    assert 0.0 <= p <= v as real;
    p.Floor
  }

  /** Color.mul: every channel scaled by the brightness factor s. */
  function Mul(c: Color, s: real): (m: Color)
    requires 0.0 <= s <= 1.0
    ensures m.r <= c.r && m.g <= c.g && m.b <= c.b
    ensures s == 1.0 ==> m == c
  {
    Color(Scale(c.r, s), Scale(c.g, s), Scale(c.b, s))
  }

  /** The factor TemperatureToColor passes to mul: float32(ledBrightness) / 100. */
  function Brightness(): (s: real)
    ensures s == 1.0
  {
    LedBrightness as real / 100.0
  }

  /** The continuous position `col` of t on the index scale 0 .. |anchors| - 1. */
  function Position(rp: Ramp, t: real): real
    requires rp.Valid()
  {
    (t - rp.minValue) / (rp.maxValue - rp.minValue) * (|rp.anchors| - 1) as real
  }

  /** The fraction is 0 at its lower end and 1 at its upper end. */
  lemma FractionEnds(d: real, n: real)
    requires 0.0 < d
    ensures 0.0 / d * n == 0.0 && d / d * n == n
  {
    assert 0.0 / d == 0.0;
    assert d / d == 1.0;
  }

  lemma FractionBounds(a: real, d: real, n: real)
    requires 0.0 <= a <= d && 0.0 < d && 0.0 <= n
    ensures 0.0 <= a / d * n <= n
  {
    var f := a / d;
    assert f * d == a;
    assert 0.0 <= f <= 1.0;
    Shrink(n, f);
  }

  lemma PositionBounds(rp: Ramp, t: real)
    requires rp.Valid() && rp.minValue <= t <= rp.maxValue
    ensures 0.0 <= Position(rp, t) <= (|rp.anchors| - 1) as real
  {
    FractionBounds(t - rp.minValue, rp.maxValue - rp.minValue, (|rp.anchors| - 1) as real);
  }

  /** math.Ceil, for the reals. */
  function Ceil(x: real): (c: int)
    ensures x <= c as real < x + 1.0
    ensures c - 1 <= x.Floor <= c
  {
    if x.Floor as real == x then x.Floor else x.Floor + 1
  }

  /** colLow := int(math.Floor(col)). */
  function LowIndex(rp: Ramp, t: real): (i: int)
    requires rp.Valid() && rp.minValue <= t <= rp.maxValue
    ensures 0 <= i < |rp.anchors|
    ensures i as real <= Position(rp, t)
  {
    PositionBounds(rp, t);
    Position(rp, t).Floor
  }

  /** colHigh := int(math.Ceil(col)): never out of range, and at most one above colLow. */
  function HighIndex(rp: Ramp, t: real): (i: int)
    requires rp.Valid() && rp.minValue <= t <= rp.maxValue
    ensures 0 <= i < |rp.anchors|
    ensures LowIndex(rp, t) <= i <= LowIndex(rp, t) + 1
    ensures Position(rp, t) <= i as real
    ensures i == LowIndex(rp, t) <==> Position(rp, t) == i as real
  {
    PositionBounds(rp, t);
    Ceil(Position(rp, t))
  }

  /** TemperatureToColor over a ramp: clamp, then blend the two anchors around t's position. */
  function ToColor(rp: Ramp, t: real): (c: Color)
    requires rp.Valid()
    ensures t < rp.minValue ==> c == rp.anchors[0]
    ensures t > rp.maxValue ==> c == rp.anchors[|rp.anchors| - 1]
    ensures rp.minValue <= t <= rp.maxValue ==>
      ColorBetween(c, rp.anchors[LowIndex(rp, t)], rp.anchors[HighIndex(rp, t)])
    ensures rp.minValue <= t <= rp.maxValue && Position(rp, t) == LowIndex(rp, t) as real ==>
      c == rp.anchors[LowIndex(rp, t)]
  {
    if t < rp.minValue then rp.anchors[0]
    else if t > rp.maxValue then rp.anchors[|rp.anchors| - 1]
    else
      var col := Position(rp, t);
      var lo := LowIndex(rp, t);
      var hi := HighIndex(rp, t);
      var dx := hi as real - col;
      Mul(Interpolate(rp.anchors[hi], rp.anchors[lo], dx), Brightness())
  }

  /** The interpolated colour is not changed by the brightness step, because the factor is 1. */
  lemma BrightnessIsIdentity(c: Color)
    ensures Mul(c, Brightness()) == c
  {
  }

  /** Exactly on min and max the ramp returns the first and last anchor, with no blending. */
  lemma {:induction false} RampEnds(rp: Ramp)
    requires rp.Valid()
    ensures ToColor(rp, rp.minValue) == rp.anchors[0]
    ensures ToColor(rp, rp.maxValue) == rp.anchors[|rp.anchors| - 1]
  {
    var n := (|rp.anchors| - 1) as real;
    FractionEnds(rp.maxValue - rp.minValue, n);
    assert rp.minValue - rp.minValue == 0.0;
    assert Position(rp, rp.minValue) == 0.0;
    assert Position(rp, rp.maxValue) == n;
    assert LowIndex(rp, rp.maxValue) == |rp.anchors| - 1;
  }

  /** The anchor pair only moves up the ramp as t rises. */
  lemma {:induction false} LowIndexMonotone(rp: Ramp, t1: real, t2: real)
    requires rp.Valid() && rp.minValue <= t1 <= t2 <= rp.maxValue
    ensures LowIndex(rp, t1) <= LowIndex(rp, t2)
    ensures HighIndex(rp, t1) <= HighIndex(rp, t2)
  {
    var d := rp.maxValue - rp.minValue;
    var f1 := (t1 - rp.minValue) / d;
    var f2 := (t2 - rp.minValue) / d;
    assert f1 * d == t1 - rp.minValue && f2 * d == t2 - rp.minValue;
    assert f1 <= f2;
    var n := (|rp.anchors| - 1) as real;
    assert f1 * n <= f2 * n;
    assert Position(rp, t1) <= Position(rp, t2);
  }

  /** TemperatureToColor of pkg/colors/colors.go. */
  function TemperatureToColor(t: real): (c: Color)
    ensures t <= 8.0 ==> c == Purple
    ensures t >= 32.0 ==> c == Red
  {
    RampEnds(RoomRamp);
    ToColor(RoomRamp, t)
  }

  /** temperatureToColor of temp_led.go and auto_led/main.go. */
  function BedroomTemperatureToColor(t: real): (c: Color)
    ensures t <= 12.0 ==> c == Purple
    ensures t >= 25.0 ==> c == Red
  {
    RampEnds(BedroomRamp);
    ToColor(BedroomRamp, t)
  }

  /** 20 degrees sits half-way between cyan and green (position 2.5, dx = 0.5); blue truncates to 127. */
  lemma TwentyDegrees()
    ensures TemperatureToColor(20.0) == Color(0, 255, 127)
    ensures ColorBetween(TemperatureToColor(20.0), Cyan, Green)
    ensures TemperatureToColor(20.0) != Cyan && TemperatureToColor(20.0) != Green
  {
    assert Position(RoomRamp, 20.0) == 2.5;
    assert LowIndex(RoomRamp, 20.0) == 2;
    assert HighIndex(RoomRamp, 20.0) == 3;
    assert Blend(255, 0, 0.5) == 127.5;
  }

  /** An AQI bucket: values up to and including upTo take this colour. */
  datatype Bucket = Bucket(upTo: real, color: Color)

  /** The AQI bands of AQIToColor, lowest first; anything above the last is brown. */
  const AqiBuckets: seq<Bucket> :=
    [Bucket(50.0, Green), Bucket(100.0, Yellow), Bucket(150.0, Orange), Bucket(200.0, Red), Bucket(300.0, Purple)]

  /** Reference lookup: the colour of the first bucket whose bound is at least idx, else otherwise. */
  function Lookup(buckets: seq<Bucket>, idx: real, otherwise: Color): (c: Color)
    ensures (forall i :: 0 <= i < |buckets| ==> idx > buckets[i].upTo) ==> c == otherwise
    ensures forall i :: (0 <= i < |buckets| && idx <= buckets[i].upTo &&
      (forall j :: 0 <= j < i ==> idx > buckets[j].upTo)) ==> c == buckets[i].color
    decreases |buckets|
  {
    if |buckets| == 0 then otherwise
    else if idx <= buckets[0].upTo then buckets[0].color
    else
      var c := Lookup(buckets[1..], idx, otherwise);
      assert forall i :: 1 <= i < |buckets| ==> buckets[i] == buckets[1..][i - 1];
      c
  }

  /** AQIToColor: the threshold chain with <= tests, so a boundary value takes the lower band. */
  function AQIToColor(idx: real): (c: Color)
    ensures c in [Green, Yellow, Orange, Red, Purple, Brown]
    ensures c == Green <==> idx <= 50.0
    ensures c == Brown <==> idx > 300.0
  {
    if idx <= 50.0 then Green
    else if idx <= 100.0 then Yellow
    else if idx <= 150.0 then Orange
    else if idx <= 200.0 then Red
    else if idx <= 300.0 then Purple
    else Brown
  }

  /** The if/else chain of AQIToColor is the first-matching-bucket lookup over AqiBuckets. */
  lemma AqiIsBucketLookup(idx: real)
    ensures AQIToColor(idx) == Lookup(AqiBuckets, idx, Brown)
  {
    var b := AqiBuckets;
    if idx <= 50.0 {
      assert b[0] == Bucket(50.0, Green);
    } else if idx <= 100.0 {
      assert b[1] == Bucket(100.0, Yellow);
    } else if idx <= 150.0 {
      assert b[2] == Bucket(150.0, Orange);
    } else if idx <= 200.0 {
      assert b[3] == Bucket(200.0, Red);
    } else if idx <= 300.0 {
      assert b[4] == Bucket(300.0, Purple);
    }
  }

  /** Each band's upper bound maps to that band, and anything just above it to the next one. */
  lemma {:induction false} AqiBoundaries(i: nat, eps: real)
    requires i < |AqiBuckets| && 0.0 < eps <= 50.0
    ensures AQIToColor(AqiBuckets[i].upTo) == AqiBuckets[i].color
    ensures AQIToColor(AqiBuckets[i].upTo + eps) == if i + 1 < |AqiBuckets| then AqiBuckets[i + 1].color else Brown
  {
    var v := AqiBuckets[i].upTo;
    if i == 0 {
      assert AQIToColor(v) == Green && AQIToColor(v + eps) == Yellow;
    } else if i == 1 {
      assert AQIToColor(v) == Yellow && AQIToColor(v + eps) == Orange;
    } else if i == 2 {
      assert AQIToColor(v) == Orange && AQIToColor(v + eps) == Red;
    } else if i == 3 {
      assert AQIToColor(v) == Red && AQIToColor(v + eps) == Purple;
    } else {
      assert AQIToColor(v) == Purple && AQIToColor(v + eps) == Brown;
    }
  }
}
