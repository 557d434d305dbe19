/** The rule base: 27 rules and the output ramp of each consequent. */
module FuzzyRules {
  import opened FuzzyMembership

  datatype Consequent = Good | Moderate | Usg | Unhealthy | VeryUnhealthy

  /** Consequent membership 0 maps to `lo` and 1 to `hi`. */
  datatype Ramp = Ramp(lo: real, hi: real)

  function RampOf(c: Consequent): (r: Ramp)
    ensures 0.0 <= r.lo < r.hi <= 100.0
  {
    match c
    case Good => Ramp(0.0, 40.0)
    case Moderate => Ramp(30.0, 60.0)
    case Usg => Ramp(50.0, 75.0)
    case Unhealthy => Ramp(65.0, 90.0)
    case VeryUnhealthy => Ramp(85.0, 100.0)
  }

  function ConsequentFor(t: Level, h: Moisture, p: Level): Consequent {
    match (t, h, p)
    case (Low, Dry, Low) => Moderate
    case (Low, Humid, Low) => Good
    case (Low, Wet, Low) => Good
    case (Medium, Dry, Low) => Moderate
    case (Medium, Humid, Low) => Good
    case (Medium, Wet, Low) => Good
    case (High, Dry, Low) => Moderate
    case (High, Humid, Low) => Moderate
    case (High, Wet, Low) => Moderate
    case (Low, Dry, Medium) => Usg
    case (Low, Humid, Medium) => Moderate
    case (Low, Wet, Medium) => Moderate
    case (Medium, Dry, Medium) => Usg
    case (Medium, Humid, Medium) => Moderate
    case (Medium, Wet, Medium) => Moderate
    case (High, Dry, Medium) => Usg
    case (High, Humid, Medium) => Usg
    case (High, Wet, Medium) => Usg
    case (Low, Dry, High) => Unhealthy
    case (Low, Humid, High) => Unhealthy
    case (Low, Wet, High) => Unhealthy
    case (Medium, Dry, High) => Unhealthy
    case (Medium, Humid, High) => Unhealthy
    case (Medium, Wet, High) => Unhealthy
    case (High, Dry, High) => VeryUnhealthy
    case (High, Humid, High) => Unhealthy
    case (High, Wet, High) => Unhealthy
  }

  function RuleRamp(t: Level, h: Moisture, p: Level): (r: Ramp)
    ensures 0.0 <= r.lo < r.hi <= 100.0
  {
    RampOf(ConsequentFor(t, h, p))
  }

  /** The three written rules: dry or hot air raises the low and medium rows, dry and hot air the high one. */
  lemma AssignmentRules(t: Level, h: Moisture)
    ensures ConsequentFor(t, h, Low) == if h.Dry? || t.High? then Moderate else Good
    ensures ConsequentFor(t, h, Medium) == if h.Dry? || t.High? then Usg else Moderate
    ensures ConsequentFor(t, h, High) == if h.Dry? && t.High? then VeryUnhealthy else Unhealthy
  {
  }

  /** One ramp lies on or above another. */
  predicate Below(a: Ramp, b: Ramp) {
    a.lo <= b.lo && a.hi <= b.hi
  }

  /** More pollution raises every rule's ramp. */
  lemma PollutionRaisesRamps(t: Level, h: Moisture)
    ensures Below(RuleRamp(t, h, Low), RuleRamp(t, h, Medium)) && Below(RuleRamp(t, h, Medium), RuleRamp(t, h, High))
  {
  }
}
