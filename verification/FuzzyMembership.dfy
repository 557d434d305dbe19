/** The membership functions of the fuzzy engine: three terms each for temperature, humidity and PM2.5. */
module FuzzyMembership {

  datatype Level = Low | Medium | High
  datatype Moisture = Dry | Humid | Wet

  function Clamp(x: real, lo: real, hi: real): real {
    var below := if hi < x then hi else x;
    if below < lo then lo else below
  }

  function Trap(x: real, a: real, b: real, c: real, d: real): real {
    if b <= x <= c then 1.0
    else if x < b then
      if b == a then 1.0 else if x <= a then 0.0 else (x - a) / (b - a)
    else if c == d then 1.0 else if x >= d then 0.0 else (d - x) / (d - c)
  }

  function TempLow(t: real): real { Trap(Clamp(t, 0.0, 50.0), 0.0, 0.0, 15.0, 35.0) }
  function TempMedium(t: real): real { Trap(Clamp(t, 0.0, 50.0), 15.0, 35.0, 40.0, 50.0) }
  function TempHigh(t: real): real { Trap(Clamp(t, 0.0, 50.0), 40.0, 50.0, 50.0, 50.0) }

  function HumDry(h: real): real { Trap(Clamp(h, 0.0, 100.0), 0.0, 0.0, 30.0, 70.0) }
  function HumHumid(h: real): real { Trap(Clamp(h, 0.0, 100.0), 30.0, 70.0, 80.0, 100.0) }
  function HumWet(h: real): real { Trap(Clamp(h, 0.0, 100.0), 80.0, 100.0, 100.0, 100.0) }

  function PmLow(p: real): real { Trap(Clamp(p, 0.0, 500.0), 0.0, 0.0, 50.0, 100.0) }
  function PmMedium(p: real): real { Trap(Clamp(p, 0.0, 500.0), 50.0, 100.0, 200.0, 300.0) }
  function PmHigh(p: real): real { Trap(Clamp(p, 0.0, 500.0), 200.0, 300.0, 500.0, 500.0) }

  /** The memberships of one value in its three terms. */
  datatype Three = Three(first: real, second: real, third: real) {
    /** The terms share a total of one, and the outer two never overlap. */
    predicate Partition() {
      && 0.0 <= first && 0.0 <= second && 0.0 <= third && first + second + third == 1.0
      && (first == 0.0 || third == 0.0)
    }

    function Nonzero(): nat {
      (if first == 0.0 then 0 else 1) + (if second == 0.0 then 0 else 1) + (if third == 0.0 then 0 else 1)
    }
  }

  function Temperature(t: real): Three { Three(TempLow(t), TempMedium(t), TempHigh(t)) }
  function Humidity(h: real): Three { Three(HumDry(h), HumHumid(h), HumWet(h)) }
  function Pm(p: real): Three { Three(PmLow(p), PmMedium(p), PmHigh(p)) }

  function OfLevel(mu: Three, l: Level): real {
    match l case Low => mu.first case Medium => mu.second case High => mu.third
  }

  function OfMoisture(mu: Three, l: Moisture): real {
    match l case Dry => mu.first case Humid => mu.second case Wet => mu.third
  }

  // ----- partitions of unity -----

  /** Where `x` is on a ramp from `a` to `b`. */
  function Rise(x: real, a: real, b: real): (r: real)
    requires a < b
    ensures 0.0 <= r <= 1.0
  {
    if x <= a then 0.0 else if x >= b then 1.0 else Fraction(x - a, b - a)
  }

  function Fraction(n: real, d: real): (r: real)
    requires 0.0 < n < d
    ensures 0.0 < r < 1.0 && r * d == n
  {
    Between(n, d);
    n / d
  }

  lemma Between(n: real, d: real)
    requires 0.0 < n < d
    ensures 0.0 < n / d < 1.0
  {
    var q := n / d;
    assert q * d == n;
    CompareScaled(q, 1.0, d);
  }

  lemma RiseIsMonotone(x: real, y: real, a: real, b: real)
    requires a < b && x <= y
    ensures Rise(x, a, b) <= Rise(y, a, b)
  {
    if a < x && y < b { QuotientsCompare(x - a, y - a, b - a); }
  }

  lemma CompareScaled(r: real, s: real, d: real)
    requires 0.0 < d
    ensures r <= s <==> r * d <= s * d
  {
  }

  lemma QuotientsCompare(m: real, n: real, d: real)
    requires 0.0 < d && m <= n
    ensures m / d <= n / d
  {
  }

  lemma TemperaturePartition(t: real)
    ensures Temperature(t).Partition()
    ensures var x, y := Rise(t, 15.0, 35.0), Rise(t, 40.0, 50.0); Temperature(t) == Three(1.0 - x, x - y, y)
  {
  }

  lemma HumidityPartition(h: real)
    ensures Humidity(h).Partition()
    ensures var x, y := Rise(h, 30.0, 70.0), Rise(h, 80.0, 100.0); Humidity(h) == Three(1.0 - x, x - y, y)
  {
  }

  lemma PmPartition(p: real)
    ensures Pm(p).Partition()
    ensures var x, y := Rise(p, 50.0, 100.0), Rise(p, 200.0, 300.0); Pm(p) == Three(1.0 - x, x - y, y)
  {
  }

  /** One or two of the three terms are nonzero. */
  lemma OneOrTwoTerms(mu: Three)
    requires mu.Partition()
    ensures 1 <= mu.Nonzero() <= 2
  {
  }
}
