/** Temporal scoring (CVSS v2, temporal equation): the three-field temporal vector
    E:x/RL:y/RC:z is parsed into three weights, whose product scales a base score
    supplied by the caller; the result is rounded half-up to one decimal. */
module Temporal {
  import opened Wrappers
  import opened Rounding
  import opened Pattern

  // The weights of the temporal metric codes as the scorer declares them.
  const E_U: real := 0.85    // unproven
  const E_POC: real := 0.9   // proof of concept
  const E_F: real := 0.95    // functional
  const E_H: real := 1.00    // high
  const E_ND: real := 1.00   // not defined
  const RL_OF: real := 0.87  // official fix
  const RL_TF: real := 0.90  // temporary fix
  const RL_W: real := 0.95   // workaround
  const RL_U: real := 1.00   // unavailable
  const RL_ND: real := 1.00  // not defined
  const RC_UC: real := 0.90  // unconfirmed
  const RC_UR: real := 0.95  // uncorroborated
  const RC_C: real := 1.00   // confirmed
  const RC_ND: real := 1.00  // not defined

  /** Exploitability codes U, POC, F, H, ND, with the weights of the CVSS v2 guide. */
  datatype Exploitability = Unproven | ProofOfConcept | Functional | High | ExploitabilityNotDefined {
    function Code(): string {
      match this
      case Unproven => "U"
      case ProofOfConcept => "POC"
      case Functional => "F"
      case High => "H"
      case ExploitabilityNotDefined => "ND"
    }
    function Weight(): real {
      match this
      case Unproven => E_U
      case ProofOfConcept => E_POC
      case Functional => E_F
      case High => E_H
      case ExploitabilityNotDefined => E_ND
    }
    static function FromCode(x: string): Exploitability {
      if x == Unproven.Code() then Unproven
      else if x == ProofOfConcept.Code() then ProofOfConcept
      else if x == Functional.Code() then Functional
      else if x == High.Code() then High
      else ExploitabilityNotDefined
    }
  }

  /** Remediation level codes OF, TF, W, U, ND. */
  datatype RemediationLevel = OfficialFix | TemporaryFix | Workaround | Unavailable | RemediationNotDefined {
    function Code(): string {
      match this
      case OfficialFix => "OF"
      case TemporaryFix => "TF"
      case Workaround => "W"
      case Unavailable => "U"
      case RemediationNotDefined => "ND"
    }
    function Weight(): real {
      match this
      case OfficialFix => RL_OF
      case TemporaryFix => RL_TF
      case Workaround => RL_W
      case Unavailable => RL_U
      case RemediationNotDefined => RL_ND
    }
    static function FromCode(x: string): RemediationLevel {
      if x == OfficialFix.Code() then OfficialFix
      else if x == TemporaryFix.Code() then TemporaryFix
      else if x == Workaround.Code() then Workaround
      else if x == Unavailable.Code() then Unavailable
      else RemediationNotDefined
    }
  }

  /** Report confidence codes UC, UR, C, ND. */
  datatype ReportConfidence = Unconfirmed | Uncorroborated | Confirmed | ConfidenceNotDefined {
    function Code(): string {
      match this
      case Unconfirmed => "UC"
      case Uncorroborated => "UR"
      case Confirmed => "C"
      case ConfidenceNotDefined => "ND"
    }
    function Weight(): real {
      match this
      case Unconfirmed => RC_UC
      case Uncorroborated => RC_UR
      case Confirmed => RC_C
      case ConfidenceNotDefined => RC_ND
    }
    static function FromCode(x: string): ReportConfidence {
      if x == Unconfirmed.Code() then Unconfirmed
      else if x == Uncorroborated.Code() then Uncorroborated
      else if x == Confirmed.Code() then Confirmed
      else ConfidenceNotDefined
    }
  }

  /** The three codes of a temporal vector. */
  datatype TemporalVector = TemporalVector(e: Exploitability, rl: RemediationLevel, rc: ReportConfidence)

  /** The parsed temporal metric: one weight per field (Go struct TemporalMetric). */
  datatype TemporalMetric = TemporalMetric(exploitability: real, remediationLevel: real, reportConfidence: real)

  const ZeroTemporalMetric := TemporalMetric(0.0, 0.0, 0.0)

  /** The regular expression E:(POC|ND|[UFH])/RL:(OF|TF|ND|[WU])/RC:(UC|UR|ND|C),
      its character classes spelled out as one-letter alternatives in their order. */
  const TemporalPattern: seq<Field> := [
    Field("E:", ["POC", "ND", "U", "F", "H"]),
    Field("/RL:", ["OF", "TF", "ND", "W", "U"]),
    Field("/RC:", ["UC", "UR", "ND", "C"])]

  /** The vector notation of a temporal vector. */
  function Format(v: TemporalVector): string {
    "E:" + v.e.Code() + ("/RL:" + v.rl.Code() + ("/RC:" + v.rc.Code()))
  }

  /** The weights the CVSS v2 guide assigns to the codes of a vector. */
  function Weights(v: TemporalVector): TemporalMetric {
    TemporalMetric(v.e.Weight(), v.rl.Weight(), v.rc.Weight())
  }

  /** Some temporal vector occurs somewhere in the string. */
  ghost predicate Parsable(s: string) {
    exists k: nat, v :: OccursAt(Format(v), s, k)
  }

  // The three switches of the parser. A capture no case names leaves the field at zero.
  function ExploitabilityCase(x: string): real {
    if x == "U" then E_U else if x == "POC" then E_POC else if x == "F" then E_F
    else if x == "H" then E_H else if x == "ND" then E_ND else 0.0
  }
  function RemediationLevelCase(x: string): real {
    if x == "OF" then RL_OF else if x == "TF" then RL_TF else if x == "W" then RL_W
    else if x == "U" then RL_U else if x == "ND" then RL_ND else 0.0
  }
  function ReportConfidenceCase(x: string): real {
    if x == "UC" then RC_UC else if x == "UR" then RC_UR else if x == "C" then RC_C
    else if x == "ND" then RC_ND else 0.0
  }

  /** Go's ParseTemporalMetric: the leftmost match of the temporal pattern, its three
      captures mapped through the switches; the zero record and ParseError when nothing matches. */
  function ParseTemporalMetric(metric: string): Returned<TemporalMetric> {
    match FindFirst(TemporalPattern, metric, 0)
    case None => Returned(ZeroTemporalMetric, Some(ParseError))
    case Some(found) =>
      MatchFromSound(TemporalPattern, metric, found.start);
      var c := found.captures;
      Returned(TemporalMetric(ExploitabilityCase(c[0]), RemediationLevelCase(c[1]), ReportConfidenceCase(c[2])), None)
  }

  /** The factor by which the temporal metrics scale the base score. */
  function Multiplier(m: TemporalMetric): real {
    m.exploitability * m.remediationLevel * m.reportConfidence
  }

  /** The temporal equation: the base score scaled by the multiplier, rounded to tenths. */
  function TemporalScore(multiplier: real, baseScore: real): real {
    Round(multiplier * baseScore)
  }

  /** Go's CalculateTemporalScore: the version guard, the parse, then the temporal equation. */
  function CalculateTemporalScore(metric: string, baseScore: real, version: int): Returned<real> {
    if version != 2 then Returned(0.0, Some(UnsupportedVersion))
    else
      var parsed := ParseTemporalMetric(metric);
      if parsed.err.Some? then Returned(0.0, parsed.err)
      else Returned(TemporalScore(Multiplier(parsed.value), baseScore), None)
  }

  /** The captures a vector's notation gives the three groups. */
  function Captures(v: TemporalVector): seq<string> {
    [v.e.Code(), v.rl.Code(), v.rc.Code()]
  }

  /** The vector whose codes are the given captures. */
  function VectorOf(caps: seq<string>): TemporalVector
    requires |caps| == 3
  {
    TemporalVector(Exploitability.FromCode(caps[0]), RemediationLevel.FromCode(caps[1]),
                   ReportConfidence.FromCode(caps[2]))
  }

  /** The notation is the temporal pattern spelled with the vector's codes, and those
      codes are exactly the alternatives the pattern's groups admit. */
  lemma FormatIsPattern(v: TemporalVector)
    ensures Fits(TemporalPattern, Captures(v)) && Format(v) == Spell(TemporalPattern, Captures(v))
  {
    var caps := Captures(v);
    var p := TemporalPattern;
    var s2 := Spell(p[2..], caps[2..]);
    assert s2 == "/RC:" + v.rc.Code() by {
      assert p[2..][0].prefix == "/RC:" && caps[2..][0] == v.rc.Code();
      assert p[2..][1..] == [] && caps[2..][1..] == [];
      assert Spell(p[2..], caps[2..]) == "/RC:" + v.rc.Code() + [];
    }
    var s1 := Spell(p[1..], caps[1..]);
    assert s1 == "/RL:" + v.rl.Code() + s2 by {
      assert p[1..][1..] == p[2..] && caps[1..][1..] == caps[2..];
    }
    assert Spell(p, caps) == "E:" + v.e.Code() + s1;
  }

  /** Every choice of captures the pattern admits is the notation of exactly one vector. */
  lemma FitsIsVector(caps: seq<string>)
    requires Fits(TemporalPattern, caps)
    ensures caps == Captures(VectorOf(caps))
  {
    assert caps[0] in TemporalPattern[0].alts && caps[1] in TemporalPattern[1].alts;
    assert caps[2] in TemporalPattern[2].alts;
  }

  /** The codes of each group are prefix-free: POC, ND, OF, TF, UC and UR can only be
      captured whole, since no alternative is a prefix of another. */
  lemma TemporalPatternPrefixFree()
    ensures PrefixFree(TemporalPattern)
  {
    GroupPrefixFree(["POC", "ND", "U", "F", "H"]);
    GroupPrefixFree(["OF", "TF", "ND", "W", "U"]);
    GroupPrefixFree(["UC", "UR", "ND", "C"]);
    forall k | 0 <= k < |TemporalPattern| ensures PrefixFreeAlts(TemporalPattern[k].alts) {
      assert k == 0 || k == 1 || k == 2;
    }
  }

  /** Where a vector's notation occurs, the matcher captures exactly its codes. */
  lemma FormatMatches(s: string, k: nat, v: TemporalVector)
    requires OccursAt(Format(v), s, k)
    ensures MatchFrom(TemporalPattern, s, k).Some? && MatchFrom(TemporalPattern, s, k).value.captures == Captures(v)
  {
    TemporalPatternPrefixFree();
    FormatIsPattern(v);
    MatchFromComplete(TemporalPattern, s, k, Captures(v));
  }

  /** Where the matcher succeeds, the notation of the vector it captured occurs. */
  lemma MatchIsFormat(s: string, k: nat)
    requires k <= |s| && MatchFrom(TemporalPattern, s, k).Some?
    ensures var caps := MatchFrom(TemporalPattern, s, k).value.captures;
      Fits(TemporalPattern, caps) && caps == Captures(VectorOf(caps)) && OccursAt(Format(VectorOf(caps)), s, k)
  {
    MatchFromSound(TemporalPattern, s, k);
    var caps := MatchFrom(TemporalPattern, s, k).value.captures;
    FitsIsVector(caps);
    FormatIsPattern(VectorOf(caps));
  }

  /** The matcher succeeds at position k exactly when some vector's notation occurs there. */
  lemma MatchAtIffFormat(s: string, k: nat)
    requires k <= |s|
    ensures MatchFrom(TemporalPattern, s, k).Some? <==> exists v :: OccursAt(Format(v), s, k)
  {
    if MatchFrom(TemporalPattern, s, k).Some? {
      MatchIsFormat(s, k);
    } else {
      forall v | OccursAt(Format(v), s, k) ensures false {
        FormatMatches(s, k, v);
      }
    }
  }

  /** At any position at most one temporal vector occurs: the multi-letter codes
      cannot be split into a shorter code followed by other text. */
  lemma OneVectorPerPosition(s: string, k: nat, v: TemporalVector, w: TemporalVector)
    requires OccursAt(Format(v), s, k) && OccursAt(Format(w), s, k)
    ensures v == w
  {
    FormatMatches(s, k, v);
    FormatMatches(s, k, w);
    CapturesInjective(v, w);
  }

  /** Different vectors capture differently. */
  lemma CapturesInjective(v: TemporalVector, w: TemporalVector)
    requires Captures(v) == Captures(w)
    ensures v == w
  {
    assert v.e.Code() == w.e.Code() && v.rl.Code() == w.rl.Code() && v.rc.Code() == w.rc.Code() by {
      assert Captures(v)[0] == Captures(w)[0] && Captures(v)[1] == Captures(w)[1] && Captures(v)[2] == Captures(w)[2];
    }
    assert v.e == Exploitability.FromCode(v.e.Code());
    assert w.e == Exploitability.FromCode(w.e.Code());
    assert v.rl == RemediationLevel.FromCode(v.rl.Code());
    assert w.rl == RemediationLevel.FromCode(w.rl.Code());
    assert v.rc == ReportConfidence.FromCode(v.rc.Code());
    assert w.rc == ReportConfidence.FromCode(w.rc.Code());
  }

  /** No temporal vector occurs in s before position k. */
  ghost predicate NoneBefore(s: string, k: nat) {
    forall j: nat, w :: j < k ==> !OccursAt(Format(w), s, j)
  }

  /** The leftmost search finds a match exactly when some vector occurs, and it
      finds the leftmost occurrence, capturing that vector's codes. */
  lemma FindFirstIsLeftmostVector(s: string)
    ensures FindFirst(TemporalPattern, s, 0).None? <==> !Parsable(s)
    ensures FindFirst(TemporalPattern, s, 0).Some? ==>
      var found := FindFirst(TemporalPattern, s, 0).value;
      |found.captures| == 3 && found.captures == Captures(VectorOf(found.captures))
      && OccursAt(Format(VectorOf(found.captures)), s, found.start) && NoneBefore(s, found.start)
  {
    if FindFirst(TemporalPattern, s, 0).None? {
      NotFoundNotParsable(s);
    } else {
      FoundVector(s, FindFirst(TemporalPattern, s, 0).value);
    }
  }

  lemma NotFoundNotParsable(s: string)
    requires FindFirst(TemporalPattern, s, 0).None?
    ensures !Parsable(s)
  {
    forall k: nat, v | OccursAt(Format(v), s, k) ensures false {
      FormatMatches(s, k, v);
    }
  }

  lemma FoundVector(s: string, found: Found)
    requires FindFirst(TemporalPattern, s, 0) == Some(found)
    ensures |found.captures| == 3 && found.captures == Captures(VectorOf(found.captures))
    ensures OccursAt(Format(VectorOf(found.captures)), s, found.start) && NoneBefore(s, found.start)
  {
    var k := found.start;
    MatchIsFormat(s, k);
    forall j: nat, w | j < k ensures !OccursAt(Format(w), s, j) {
      if OccursAt(Format(w), s, j) {
        FormatMatches(s, j, w);
      }
    }
  }

  /** The three switches give each code the weight the CVSS v2 guide lists. */
  lemma SwitchesMatchGuide(v: TemporalVector)
    ensures ExploitabilityCase(v.e.Code()) == v.e.Weight()
    ensures RemediationLevelCase(v.rl.Code()) == v.rl.Weight()
    ensures ReportConfidenceCase(v.rc.Code()) == v.rc.Weight()
  {
  }

  /** The temporal parser: it fails, with the zero record and ParseError, exactly when
      no vector occurs in the string; otherwise it returns the guide's weights for the
      leftmost vector that occurs. */
  lemma ParseTemporalMetricSpec(s: string)
    ensures ParseTemporalMetric(s).err.Some? <==> !Parsable(s)
    ensures ParseTemporalMetric(s).err.Some? ==>
      ParseTemporalMetric(s) == Returned(ZeroTemporalMetric, Some(ParseError))
    ensures ParseTemporalMetric(s).err.None? ==> exists k: nat, v ::
      OccursAt(Format(v), s, k) && NoneBefore(s, k) && ParseTemporalMetric(s).value == Weights(v)
  {
    FindFirstIsLeftmostVector(s);
    if FindFirst(TemporalPattern, s, 0).Some? {
      var found := FindFirst(TemporalPattern, s, 0).value;
      var v := VectorOf(found.captures);
      SwitchesMatchGuide(v);
      assert ParseTemporalMetric(s).value == Weights(v);
    }
  }

  /** The leftmost match in a string that starts with a vector's notation is that
      vector's, at position 0. */
  lemma FoundAtStart(v: TemporalVector, t: string)
    ensures FindFirst(TemporalPattern, Format(v) + t, 0) == Some(Found(0, Captures(v)))
  {
    FormatIsPattern(v);
    TemporalPatternPrefixFree();
    LeftmostAtStart(TemporalPattern, Captures(v), t);
  }

  /** Round trip: the notation of any vector, followed by any text, parses to that
      vector's weights; text after a well-formed vector never changes the result. */
  lemma ParseFormat(v: TemporalVector, t: string)
    ensures ParseTemporalMetric(Format(v) + t) == Returned(Weights(v), None)
  {
    FoundAtStart(v, t);
    SwitchesMatchGuide(v);
  }

  /** Text around a vector: whatever precedes the vector's notation, as long as no
      vector occurs before it, and whatever follows it, the parse gives that vector's
      weights. A vector in the leading text would win instead (see ParseTemporalMetricSpec). */
  lemma ParseAfterText(t: string, v: TemporalVector, u: string)
    requires NoneBefore(t + Format(v) + u, |t|)
    ensures ParseTemporalMetric(t + Format(v) + u) == Returned(Weights(v), None)
  {
    var s := t + Format(v) + u;
    var k := |t|;
    assert OccursAt(Format(v), s, k) by {
      assert s[k..k + |Format(v)|] == Format(v);
    }
    FormatMatches(s, k, v);
    var found := FindFirst(TemporalPattern, s, 0).value;
    FoundVector(s, found);
    var w := VectorOf(found.captures);
    assert found.start == k;
    OneVectorPerPosition(s, k, v, w);
    SwitchesMatchGuide(v);
  }

  /** Every field of a successful parse is one of its table constants, so the
      switches' zero-fill path is never taken. */
  lemma ParsedFieldsInTables(s: string)
    requires ParseTemporalMetric(s).err.None?
    ensures var m := ParseTemporalMetric(s).value;
      m.exploitability in {E_U, E_POC, E_F, E_H, E_ND}
      && m.remediationLevel in {RL_OF, RL_TF, RL_W, RL_U, RL_ND}
      && m.reportConfidence in {RC_UC, RC_UR, RC_C, RC_ND}
  {
    ParseTemporalMetricSpec(s);
  }

  /** Each weight of a metric lies between the smallest entry of its table and 1. */
  predicate Bounded(m: TemporalMetric) {
    0.85 <= m.exploitability <= 1.0
    && 0.87 <= m.remediationLevel <= 1.0
    && 0.90 <= m.reportConfidence <= 1.0
  }

  /** Every vector's weights are bounded. */
  lemma WeightsBounded(v: TemporalVector)
    ensures Bounded(Weights(v))
  {
  }

  /** The multiplier of bounded weights lies between 0.85 * 0.87 * 0.90 and 1. */
  lemma MultiplierBounds(m: TemporalMetric)
    requires Bounded(m)
    ensures 0.85 * 0.87 * 0.90 <= Multiplier(m) <= 1.0
  {
    var x, y, z := m.exploitability, m.remediationLevel, m.reportConfidence;
    ProductMonotone(0.85, x, 0.87, y);
    ProductMonotone(x, 1.0, y, 1.0);
    ProductMonotone(0.85 * 0.87, x * y, 0.90, z);
    ProductMonotone(x * y, 1.0, z, 1.0);
  }

  /** Products of non-negative reals grow with both factors. */
  lemma ProductMonotone(a: real, b: real, c: real, d: real)
    requires 0.0 <= a <= b && 0.0 <= c <= d
    ensures a * c <= b * d
  {
    assert a * c <= b * c;
  }

  /** The notation of any vector, followed by any text, scores the temporal equation
      on that vector's weights. */
  lemma ScoreFormat(v: TemporalVector, baseScore: real, t: string)
    ensures CalculateTemporalScore(Format(v) + t, baseScore, 2) == Returned(TemporalScore(Multiplier(Weights(v)), baseScore), None)
  {
    ParseFormat(v, t);
  }

  /** With multiplier 1 the temporal equation is the rounded base score. */
  lemma UnitMultiplier(baseScore: real)
    ensures TemporalScore(1.0, baseScore) == Round(baseScore)
  {
    assert 1.0 * baseScore == baseScore;
  }

  /** The vector whose fields are all not defined. */
  const NotDefined := TemporalVector(ExploitabilityNotDefined, RemediationNotDefined, ConfidenceNotDefined)

  /** The notation of the all-not-defined vector. */
  lemma NotDefinedNotation(s: string)
    requires s == "E:ND/RL:ND/RC:ND"
    ensures Format(NotDefined) == s
  {
  }

  /** The all-not-defined vector scores the rounded base score, whatever follows it. */
  lemma NotDefinedScore(baseScore: real, t: string)
    ensures CalculateTemporalScore(Format(NotDefined) + t, baseScore, 2) == Returned(Round(baseScore), None)
  {
    assert Multiplier(Weights(NotDefined)) == 1.0 by {
      assert Weights(NotDefined) == TemporalMetric(1.0, 1.0, 1.0);
    }
    ScoreFormat(NotDefined, baseScore, t);
    UnitMultiplier(baseScore);
  }

  /** A vector whose fields are all not defined (E:ND/RL:ND/RC:ND) leaves the base
      score unscaled: the temporal score is the rounded base score, which is the base
      score itself when that is already a whole number of tenths. */
  lemma AllNotDefined(s: string, baseScore: real, t: string)
    requires s == "E:ND/RL:ND/RC:ND"
    ensures CalculateTemporalScore(s + t, baseScore, 2) == Returned(Round(baseScore), None)
    ensures IsTenths(baseScore) ==> CalculateTemporalScore(s + t, baseScore, 2) == Returned(baseScore, None)
  {
    NotDefinedNotation(s);
    NotDefinedScore(baseScore, t);
    if IsTenths(baseScore) {
      RoundTenths(baseScore);
    }
  }

  /** A multiplier between 0 and 1 never raises the rounded non-negative base score. */
  lemma ScaledDown(multiplier: real, baseScore: real)
    requires 0.0 <= multiplier <= 1.0 && baseScore >= 0.0
    ensures TemporalScore(multiplier, baseScore) <= Round(baseScore)
  {
    RoundScaledDown(multiplier, baseScore);
  }

  /** For a non-negative base score and bounded weights, the temporal score never
      exceeds the rounded base score. */
  lemma NeverExceedsBase(m: TemporalMetric, baseScore: real)
    requires Bounded(m) && baseScore >= 0.0
    ensures TemporalScore(Multiplier(m), baseScore) <= Round(baseScore)
  {
    MultiplierBounds(m);
    ScaledDown(Multiplier(m), baseScore);
  }

  /** Whatever string is scored, a successful temporal score never exceeds the
      rounded base score when the base score is non-negative. */
  lemma ScoreAtMostBase(metric: string, baseScore: real)
    requires baseScore >= 0.0
    ensures var r := CalculateTemporalScore(metric, baseScore, 2);
      r.err.None? ==> r.value <= Round(baseScore)
  {
    ParseTemporalMetricSpec(metric);
    if Parsable(metric) {
      var k: nat, v :| OccursAt(Format(v), metric, k) && NoneBefore(metric, k)
        && ParseTemporalMetric(metric).value == Weights(v);
      WeightsBounded(v);
      NeverExceedsBase(Weights(v), baseScore);
    }
  }

  /** The temporal score of a vector string: version 2 only; a string holding no vector
      gives ParseError and score 0; otherwise the rounded product of the leftmost
      vector's multiplier and the base score. */
  lemma CalculateTemporalScoreSpec(metric: string, baseScore: real, version: int)
    ensures version != 2 ==>
      CalculateTemporalScore(metric, baseScore, version) == Returned(0.0, Some(UnsupportedVersion))
    ensures version == 2 && !Parsable(metric) ==>
      CalculateTemporalScore(metric, baseScore, version) == Returned(0.0, Some(ParseError))
    ensures version == 2 && Parsable(metric) ==> exists k: nat, v ::
      OccursAt(Format(v), metric, k) && NoneBefore(metric, k)
      && CalculateTemporalScore(metric, baseScore, version) == Returned(TemporalScore(Multiplier(Weights(v)), baseScore), None)
  {
    ParseTemporalMetricSpec(metric);
    if version == 2 && Parsable(metric) {
      var k: nat, v :| OccursAt(Format(v), metric, k) && NoneBefore(metric, k)
        && ParseTemporalMetric(metric).value == Weights(v);
      assert CalculateTemporalScore(metric, baseScore, version) == Returned(TemporalScore(Multiplier(Weights(v)), baseScore), None);
    }
  }

  /** The repository's parse example: E:U/RL:W/RC:UC gives 0.85, 0.95 and 0.90. */
  lemma TemporalParseExample(s: string)
    requires s == "E:U/RL:W/RC:UC"
    ensures ParseTemporalMetric(s) == Returned(TemporalMetric(0.85, 0.95, 0.90), None)
  {
    var v := TemporalVector(Unproven, Workaround, Unconfirmed);
    assert Format(v) + [] == s;
    ParseFormat(v, []);
  }

  /** The repository's score example: E:F/RL:OF/RC:C with base score 7.8 gives 6.4
      (version 3 is refused for every string, see CalculateTemporalScoreSpec). */
  lemma TemporalScoreExample(s: string)
    requires s == "E:F/RL:OF/RC:C"
    ensures CalculateTemporalScore(s, 7.8, 2) == Returned(6.4, None)
  {
    var v := TemporalVector(Functional, OfficialFix, Confirmed);
    assert Format(v) + [] == s;
    ParseFormat(v, []);
    ExampleVectorScore(v);
  }

  lemma ExampleVectorScore(v: TemporalVector)
    requires v == TemporalVector(Functional, OfficialFix, Confirmed)
    ensures Round(Multiplier(Weights(v)) * 7.8) == 6.4
  {
    assert Multiplier(Weights(v)) == 0.8265;
    RoundUnique(6.4467, 6.4);
  }

  /** A product that lands exactly on a half tenth: 0.95 · 1 · 1 · 3.0 = 2.85 rounds up
      to 2.9 over exact reals. */
  lemma HalfTenthBoundary(v: TemporalVector)
    requires v == TemporalVector(Functional, Unavailable, Confirmed)
    ensures TemporalScore(Multiplier(Weights(v)), 3.0) == 2.9
  {
    assert Multiplier(Weights(v)) * 3.0 == 28 as real / 10.0 + 0.05;
    RoundHalfUp(28);
  }
}
