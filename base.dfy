/** Base scoring (CVSS v2, base equation): the six-field base vector
    AV:x/AC:y/Au:z/C:c/I:i/A:a is parsed into six weights, which the base equation
    combines into a score rounded half-up to one decimal. */
module Base {
  import opened Wrappers
  import opened Rounding
  import opened Pattern

  // The weights of the base metric codes as the scorer declares them.
  const AV_L: real := 0.395  // local access
  const AV_A: real := 0.646  // adjacent network accessible
  const AV_N: real := 1.0    // network accessible
  const AC_H: real := 0.35   // high complexity
  const AC_M: real := 0.61   // medium complexity
  const AC_L: real := 0.71   // low complexity
  const Au_M: real := 0.45   // multiple instances of authentication
  const Au_S: real := 0.56   // single instance of authentication
  const Au_N: real := 0.704  // no authentication
  const C_N: real := 0.0     // confidentiality impact: none
  const C_P: real := 0.275   // partial
  const C_C: real := 0.660   // complete
  const I_N: real := 0.0     // integrity impact: none
  const I_P: real := 0.275   // partial
  const I_C: real := 0.660   // complete
  const A_N: real := 0.0     // availability impact: none
  const A_P: real := 0.275   // partial
  const A_C: real := 0.660   // complete

  /** Access vector codes L, A, N, with the weights of the CVSS v2 guide. */
  datatype AccessVector = Local | AdjacentNetwork | Network {
    function Letter(): string {
      match this
      case Local => "L"
      case AdjacentNetwork => "A"
      case Network => "N"
    }
    function Weight(): real {
      match this
      case Local => AV_L
      case AdjacentNetwork => AV_A
      case Network => AV_N
    }
    static function FromLetter(x: string): AccessVector {
      if x == Local.Letter() then Local else if x == AdjacentNetwork.Letter() then AdjacentNetwork else Network
    }
  }

  /** Access complexity codes H, M, L. */
  datatype AccessComplexity = High | Medium | Low {
    function Letter(): string {
      match this
      case High => "H"
      case Medium => "M"
      case Low => "L"
    }
    function Weight(): real {
      match this
      case High => AC_H
      case Medium => AC_M
      case Low => AC_L
    }
    static function FromLetter(x: string): AccessComplexity {
      if x == High.Letter() then High else if x == Medium.Letter() then Medium else Low
    }
  }

  /** Authentication codes M, S, N. */
  datatype Authentication = Multiple | Single | NoAuthentication {
    function Letter(): string {
      match this
      case Multiple => "M"
      case Single => "S"
      case NoAuthentication => "N"
    }
    function Weight(): real {
      match this
      case Multiple => Au_M
      case Single => Au_S
      case NoAuthentication => Au_N
    }
    static function FromLetter(x: string): Authentication {
      if x == Multiple.Letter() then Multiple else if x == Single.Letter() then Single else NoAuthentication
    }
  }

  /** Impact codes N, P, C, shared by confidentiality, integrity and availability, whose
      three tables hold the same weights. */
  datatype ImpactLevel = NoImpact | Partial | Complete {
    function Letter(): string {
      match this
      case NoImpact => "N"
      case Partial => "P"
      case Complete => "C"
    }
    function Weight(): real {
      match this
      case NoImpact => C_N
      case Partial => C_P
      case Complete => C_C
    }
    static function FromLetter(x: string): ImpactLevel {
      if x == NoImpact.Letter() then NoImpact else if x == Partial.Letter() then Partial else Complete
    }
  }

  /** The six codes of a base vector. */
  datatype BaseVector = BaseVector(
    av: AccessVector, ac: AccessComplexity, au: Authentication,
    c: ImpactLevel, i: ImpactLevel, a: ImpactLevel)

  /** The parsed base metric: one weight per field (Go struct BaseMetric). */
  datatype BaseMetric = BaseMetric(
    accessVector: real, accessComplexity: real, authentication: real,
    confidentiality: real, integrity: real, availability: real)

  const ZeroBaseMetric := BaseMetric(0.0, 0.0, 0.0, 0.0, 0.0, 0.0)

  /** The regular expression AV:([LAN])/AC:([HML])/Au:([MSN])/C:([NPC])/I:([NPC])/A:([NPC]). */
  const BasePattern: seq<Field> := [
    Field("AV:", ["L", "A", "N"]), Field("/AC:", ["H", "M", "L"]), Field("/Au:", ["M", "S", "N"]),
    Field("/C:", ["N", "P", "C"]), Field("/I:", ["N", "P", "C"]), Field("/A:", ["N", "P", "C"])]

  /** The vector notation of a base vector. */
  function Format(v: BaseVector): string {
    "AV:" + v.av.Letter() + ("/AC:" + v.ac.Letter() + ("/Au:" + v.au.Letter()
      + ("/C:" + v.c.Letter() + ("/I:" + v.i.Letter() + ("/A:" + v.a.Letter())))))
  }

  /** The weights the CVSS v2 guide assigns to the codes of a vector. */
  function Weights(v: BaseVector): BaseMetric {
    BaseMetric(v.av.Weight(), v.ac.Weight(), v.au.Weight(), v.c.Weight(), v.i.Weight(), v.a.Weight())
  }

  /** Some base vector occurs somewhere in the string. */
  ghost predicate Parsable(s: string) {
    exists k: nat, v :: OccursAt(Format(v), s, k)
  }

  // The six switches of the parser. A capture no case names leaves the field at zero.
  function AccessVectorCase(x: string): real {
    if x == "L" then AV_L else if x == "A" then AV_A else if x == "N" then AV_N else 0.0
  }
  function AccessComplexityCase(x: string): real {
    if x == "H" then AC_H else if x == "L" then AC_L else if x == "M" then AC_M else 0.0
  }
  function AuthenticationCase(x: string): real {
    if x == "M" then Au_M else if x == "S" then Au_S else if x == "N" then Au_N else 0.0
  }
  function ConfidentialityCase(x: string): real {
    if x == "N" then C_N else if x == "P" then C_P else if x == "C" then C_C else 0.0
  }
  function IntegrityCase(x: string): real {
    if x == "N" then I_N else if x == "P" then I_P else if x == "C" then I_C else 0.0
  }
  function AvailabilityCase(x: string): real {
    if x == "N" then A_N else if x == "P" then A_P else if x == "C" then A_C else 0.0
  }

  /** Go's ParseBaseScore: the leftmost match of the base pattern, its six captures
      mapped through the switches; the zero record and ParseError when nothing matches. */
  function ParseBaseScore(metric: string): Returned<BaseMetric> {
    match FindFirst(BasePattern, metric, 0)
    case None => Returned(ZeroBaseMetric, Some(ParseError))
    case Some(found) =>
      MatchFromSound(BasePattern, metric, found.start);
      var c := found.captures;
      Returned(BaseMetric(AccessVectorCase(c[0]), AccessComplexityCase(c[1]), AuthenticationCase(c[2]),
                          ConfidentialityCase(c[3]), IntegrityCase(c[4]), AvailabilityCase(c[5])), None)
  }

  function Exploitability(m: BaseMetric): real {
    20.0 * m.accessVector * m.accessComplexity * m.authentication
  }

  function Impact(m: BaseMetric): real {
    10.41 * (1.0 - (1.0 - m.confidentiality) * (1.0 - m.integrity) * (1.0 - m.availability))
  }

  /** The base equation before rounding; f(Impact) is 0 when the impact is 0, else 1.176. */
  function RawBaseScore(m: BaseMetric): real {
    var fImpact := if Impact(m) == 0.0 then 0.0 else 1.176;
    (0.6 * Impact(m) + 0.4 * Exploitability(m) - 1.5) * fImpact
  }

  /** Go's CalculateBaseScore: the version guard, the parse, the base equation, the rounding. */
  function CalculateBaseScore(metric: string, version: int): Returned<real> {
    if version != 2 then Returned(0.0, Some(UnsupportedVersion))
    else
      var parsed := ParseBaseScore(metric);
      if parsed.err.Some? then Returned(0.0, parsed.err)
      else Returned(Round(RawBaseScore(parsed.value)), None)
  }

  /** The score the base equation gives a vector. */
  function VectorScore(v: BaseVector): real {
    Round(RawBaseScore(Weights(v)))
  }

  /** The captures a vector's notation gives the six groups. */
  function Captures(v: BaseVector): seq<string> {
    [v.av.Letter(), v.ac.Letter(), v.au.Letter(), v.c.Letter(), v.i.Letter(), v.a.Letter()]
  }

  /** The vector whose codes are the given captures. */
  function VectorOf(caps: seq<string>): BaseVector
    requires |caps| == 6
  {
    BaseVector(AccessVector.FromLetter(caps[0]), AccessComplexity.FromLetter(caps[1]),
               Authentication.FromLetter(caps[2]), ImpactLevel.FromLetter(caps[3]),
               ImpactLevel.FromLetter(caps[4]), ImpactLevel.FromLetter(caps[5]))
  }

  /** The notation is the base pattern spelled with the vector's letters, and those
      letters are exactly the ones the pattern's character classes admit. */
  lemma FormatIsPattern(v: BaseVector)
    ensures Fits(BasePattern, Captures(v)) && Format(v) == Spell(BasePattern, Captures(v))
  {
    var caps := Captures(v);
    var p := BasePattern;
    var s5 := Spell(p[5..], caps[5..]);
    assert s5 == "/A:" + v.a.Letter() by {
      assert p[5..][0].prefix == "/A:" && caps[5..][0] == v.a.Letter();
      assert p[5..][1..] == [] && caps[5..][1..] == [];
      assert Spell(p[5..], caps[5..]) == "/A:" + v.a.Letter() + [];
    }
    var s4 := Spell(p[4..], caps[4..]);
    assert s4 == "/I:" + v.i.Letter() + s5 by {
      assert p[4..][1..] == p[5..] && caps[4..][1..] == caps[5..];
    }
    var s3 := Spell(p[3..], caps[3..]);
    assert s3 == "/C:" + v.c.Letter() + s4 by {
      assert p[3..][1..] == p[4..] && caps[3..][1..] == caps[4..];
    }
    var s2 := Spell(p[2..], caps[2..]);
    assert s2 == "/Au:" + v.au.Letter() + s3 by {
      assert p[2..][1..] == p[3..] && caps[2..][1..] == caps[3..];
    }
    var s1 := Spell(p[1..], caps[1..]);
    assert s1 == "/AC:" + v.ac.Letter() + s2 by {
      assert p[1..][1..] == p[2..] && caps[1..][1..] == caps[2..];
    }
    assert Spell(p, caps) == "AV:" + v.av.Letter() + s1;
  }

  /** Every choice of captures the pattern admits is the notation of exactly one vector. */
  lemma FitsIsVector(caps: seq<string>)
    requires Fits(BasePattern, caps)
    ensures caps == Captures(VectorOf(caps))
  {
    assert caps[0] in ["L", "A", "N"] && caps[1] in ["H", "M", "L"] && caps[2] in ["M", "S", "N"];
    assert caps[3] in ["N", "P", "C"] && caps[4] in ["N", "P", "C"] && caps[5] in ["N", "P", "C"];
    AccessVectorLetter(caps[0]);
    AccessComplexityLetter(caps[1]);
    AuthenticationLetter(caps[2]);
    ImpactLetter(caps[3]);
    ImpactLetter(caps[4]);
    ImpactLetter(caps[5]);
  }

  // Each letter a character class admits is the letter of the code it names.
  lemma AccessVectorLetter(x: string)
    requires x in ["L", "A", "N"]
    ensures AccessVector.FromLetter(x).Letter() == x
  {
  }

  lemma AccessComplexityLetter(x: string)
    requires x in ["H", "M", "L"]
    ensures AccessComplexity.FromLetter(x).Letter() == x
  {
  }

  lemma AuthenticationLetter(x: string)
    requires x in ["M", "S", "N"]
    ensures Authentication.FromLetter(x).Letter() == x
  {
  }

  lemma ImpactLetter(x: string)
    requires x in ["N", "P", "C"]
    ensures ImpactLevel.FromLetter(x).Letter() == x
  {
  }

  /** The character classes of the base pattern are single letters, so no two overlap. */
  lemma BasePatternPrefixFree()
    ensures PrefixFree(BasePattern)
  {
    GroupPrefixFree(["L", "A", "N"]);
    GroupPrefixFree(["H", "M", "L"]);
    GroupPrefixFree(["M", "S", "N"]);
    GroupPrefixFree(["N", "P", "C"]);
    forall k | 0 <= k < |BasePattern| ensures PrefixFreeAlts(BasePattern[k].alts) {
      assert k == 0 || k == 1 || k == 2 || 3 <= k <= 5;
    }
  }

  /** Where a vector's notation occurs, the matcher captures exactly its letters. */
  lemma FormatMatches(s: string, k: nat, v: BaseVector)
    requires OccursAt(Format(v), s, k)
    ensures MatchFrom(BasePattern, s, k).Some? && MatchFrom(BasePattern, s, k).value.captures == Captures(v)
  {
    BasePatternPrefixFree();
    FormatIsPattern(v);
    MatchFromComplete(BasePattern, s, k, Captures(v));
  }

  /** Where the matcher succeeds, the notation of the vector it captured occurs. */
  lemma MatchIsFormat(s: string, k: nat)
    requires k <= |s| && MatchFrom(BasePattern, s, k).Some?
    ensures var caps := MatchFrom(BasePattern, s, k).value.captures;
      Fits(BasePattern, caps) && caps == Captures(VectorOf(caps)) && OccursAt(Format(VectorOf(caps)), s, k)
  {
    MatchFromSound(BasePattern, s, k);
    var caps := MatchFrom(BasePattern, s, k).value.captures;
    FitsIsVector(caps);
    FormatIsPattern(VectorOf(caps));
  }

  /** The matcher succeeds at position k exactly when some vector's notation occurs there. */
  lemma MatchAtIffFormat(s: string, k: nat)
    requires k <= |s|
    ensures MatchFrom(BasePattern, s, k).Some? <==> exists v :: OccursAt(Format(v), s, k)
  {
    if MatchFrom(BasePattern, s, k).Some? {
      MatchIsFormat(s, k);
    } else {
      forall v | OccursAt(Format(v), s, k) ensures false {
        FormatMatches(s, k, v);
      }
    }
  }

  /** Different vectors capture differently, so a fitting capture list is the letters
      of one vector only. */
  lemma CapturesInjective(v: BaseVector, w: BaseVector)
    requires Captures(v) == Captures(w)
    ensures v == w
  {
    assert v.av.Letter() == w.av.Letter() && v.ac.Letter() == w.ac.Letter() && v.au.Letter() == w.au.Letter() by {
      assert Captures(v)[0] == Captures(w)[0] && Captures(v)[1] == Captures(w)[1] && Captures(v)[2] == Captures(w)[2];
    }
    assert v.c.Letter() == w.c.Letter() && v.i.Letter() == w.i.Letter() && v.a.Letter() == w.a.Letter() by {
      assert Captures(v)[3] == Captures(w)[3] && Captures(v)[4] == Captures(w)[4] && Captures(v)[5] == Captures(w)[5];
    }
  }

  /** At any position at most one base vector occurs. */
  lemma OneVectorPerPosition(s: string, k: nat, v: BaseVector, w: BaseVector)
    requires OccursAt(Format(v), s, k) && OccursAt(Format(w), s, k)
    ensures v == w
  {
    FormatMatches(s, k, v);
    FormatMatches(s, k, w);
    CapturesInjective(v, w);
  }

  /** No vector occurs in s before position k. */
  ghost predicate NoneBefore(s: string, k: nat) {
    forall j: nat, w :: j < k ==> !OccursAt(Format(w), s, j)
  }

  /** The leftmost search finds a match exactly when some vector occurs, and it
      finds the leftmost occurrence, capturing that vector's letters. */
  lemma FindFirstIsLeftmostVector(s: string)
    ensures FindFirst(BasePattern, s, 0).None? <==> !Parsable(s)
    ensures FindFirst(BasePattern, s, 0).Some? ==>
      var found := FindFirst(BasePattern, s, 0).value;
      |found.captures| == 6 && found.captures == Captures(VectorOf(found.captures))
      && OccursAt(Format(VectorOf(found.captures)), s, found.start) && NoneBefore(s, found.start)
  {
    if FindFirst(BasePattern, s, 0).None? {
      NotFoundNotParsable(s);
    } else {
      FoundVector(s, FindFirst(BasePattern, s, 0).value);
    }
  }

  lemma NotFoundNotParsable(s: string)
    requires FindFirst(BasePattern, s, 0).None?
    ensures !Parsable(s)
  {
    forall k: nat, v | OccursAt(Format(v), s, k) ensures false {
      FormatMatches(s, k, v);
    }
  }

  lemma FoundVector(s: string, found: Found)
    requires FindFirst(BasePattern, s, 0) == Some(found)
    ensures |found.captures| == 6 && found.captures == Captures(VectorOf(found.captures))
    ensures OccursAt(Format(VectorOf(found.captures)), s, found.start) && NoneBefore(s, found.start)
  {
    var k := found.start;
    MatchIsFormat(s, k);
    forall j: nat, w | j < k ensures !OccursAt(Format(w), s, j) {
      if OccursAt(Format(w), s, j) {
        FormatMatches(s, j, w);
      }
    }
  }

  /** The six switches give each code's letter the weight the CVSS v2 guide lists. */
  lemma SwitchesMatchGuide(v: BaseVector)
    ensures AccessVectorCase(v.av.Letter()) == v.av.Weight()
    ensures AccessComplexityCase(v.ac.Letter()) == v.ac.Weight()
    ensures AuthenticationCase(v.au.Letter()) == v.au.Weight()
    ensures ConfidentialityCase(v.c.Letter()) == v.c.Weight()
    ensures IntegrityCase(v.i.Letter()) == v.i.Weight()
    ensures AvailabilityCase(v.a.Letter()) == v.a.Weight()
  {
  }

  /** The base parser: it fails, with the zero record and ParseError, exactly when no
      vector occurs in the string; otherwise it returns the guide's weights for the
      leftmost vector that occurs. */
  lemma ParseBaseScoreSpec(s: string)
    ensures ParseBaseScore(s).err.Some? <==> !Parsable(s)
    ensures ParseBaseScore(s).err.Some? ==> ParseBaseScore(s) == Returned(ZeroBaseMetric, Some(ParseError))
    ensures ParseBaseScore(s).err.None? ==> exists k: nat, v ::
      OccursAt(Format(v), s, k) && NoneBefore(s, k) && ParseBaseScore(s).value == Weights(v)
  {
    FindFirstIsLeftmostVector(s);
    if FindFirst(BasePattern, s, 0).Some? {
      var found := FindFirst(BasePattern, s, 0).value;
      var v := VectorOf(found.captures);
      SwitchesMatchGuide(v);
      assert ParseBaseScore(s).value == Weights(v);
    }
  }

  /** The leftmost match in a string that starts with a vector's notation is that
      vector's, at position 0. */
  lemma FoundAtStart(v: BaseVector, t: string)
    ensures FindFirst(BasePattern, Format(v) + t, 0) == Some(Found(0, Captures(v)))
  {
    FormatIsPattern(v);
    BasePatternPrefixFree();
    LeftmostAtStart(BasePattern, Captures(v), t);
  }

  /** Round trip: the notation of any vector, followed by any text, parses to that
      vector's weights; text after a well-formed vector never changes the result. */
  lemma ParseFormat(v: BaseVector, t: string)
    ensures ParseBaseScore(Format(v) + t) == Returned(Weights(v), None)
  {
    FoundAtStart(v, t);
    SwitchesMatchGuide(v);
  }

  /** Text around a vector: whatever precedes the vector's notation, as long as no
      vector occurs before it, and whatever follows it, the parse gives that vector's
      weights. A vector in the leading text would win instead (see ParseBaseScoreSpec). */
  lemma ParseAfterText(t: string, v: BaseVector, u: string)
    requires NoneBefore(t + Format(v) + u, |t|)
    ensures ParseBaseScore(t + Format(v) + u) == Returned(Weights(v), None)
  {
    var s := t + Format(v) + u;
    var k := |t|;
    assert OccursAt(Format(v), s, k) by {
      assert s[k..k + |Format(v)|] == Format(v);
    }
    FormatMatches(s, k, v);
    var found := FindFirst(BasePattern, s, 0).value;
    FoundVector(s, found);
    var w := VectorOf(found.captures);
    assert found.start == k;
    OneVectorPerPosition(s, k, v, w);
    SwitchesMatchGuide(v);
  }

  /** Every field of a successful parse is one of its three table constants, so the
      switches' zero-fill path is never taken. */
  lemma ParsedFieldsInTables(s: string)
    requires ParseBaseScore(s).err.None?
    ensures var m := ParseBaseScore(s).value;
      m.accessVector in {AV_L, AV_A, AV_N} && m.accessComplexity in {AC_H, AC_M, AC_L}
      && m.authentication in {Au_M, Au_S, Au_N} && m.confidentiality in {C_N, C_P, C_C}
      && m.integrity in {I_N, I_P, I_C} && m.availability in {A_N, A_P, A_C}
  {
    ParseBaseScoreSpec(s);
  }

  /** The impact is zero exactly when confidentiality, integrity and availability are all unaffected. */
  lemma ImpactZeroIff(v: BaseVector)
    ensures Impact(Weights(v)) == 0.0 <==> v.c == NoImpact && v.i == NoImpact && v.a == NoImpact
  {
    var x, y, z := 1.0 - v.c.Weight(), 1.0 - v.i.Weight(), 1.0 - v.a.Weight();
    assert 0.34 <= x <= 1.0 && 0.34 <= y <= 1.0 && 0.34 <= z <= 1.0;
    if x * y * z == 1.0 {
      assert x * y <= 1.0;
      assert x == 1.0 && y == 1.0 && z == 1.0;
    }
  }

  /** The exploitability subscore ranges from 20 * 0.395 * 0.35 * 0.45 to 20 * 1.0 * 0.71 * 0.704. */
  lemma ExploitabilityBounds(v: BaseVector)
    ensures 1.24425 <= Exploitability(Weights(v)) <= 9.9968
  {
    match v.av {
      case Local =>
        match v.ac {
          case High =>
          case Medium =>
          case Low =>
        }
      case AdjacentNetwork =>
        match v.ac {
          case High =>
          case Medium =>
          case Low =>
        }
      case Network =>
        match v.ac {
          case High =>
          case Medium =>
          case Low =>
        }
    }
  }

  /** The impact subscore is 0 or at least 10.41 * (1 - 0.725), and at most 10.41 * (1 - 0.34^3). */
  lemma ImpactBounds(v: BaseVector)
    ensures Impact(Weights(v)) == 0.0 || 2.86275 <= Impact(Weights(v)) <= 10.00084536
  {
    var x, y, z := 1.0 - v.c.Weight(), 1.0 - v.i.Weight(), 1.0 - v.a.Weight();
    assert x * y in {1.0, 0.725, 0.34, 0.525625, 0.2465, 0.1156} by {
      match v.c
      case NoImpact =>
      case Partial =>
      case Complete =>
    }
    match v.a
    case NoImpact =>
    case Partial =>
    case Complete =>
  }

  /** Every vector scores between 0.0 and 10.0, and scores 0.0 exactly when it has no impact. */
  lemma VectorScoreRange(v: BaseVector)
    ensures 0.0 <= VectorScore(v) <= 10.0
    ensures VectorScore(v) == 0.0 <==> v.c == NoImpact && v.i == NoImpact && v.a == NoImpact
  {
    var m := Weights(v);
    ImpactZeroIff(v);
    ExploitabilityBounds(v);
    ImpactBounds(v);
    var raw := RawBaseScore(m);
    if Impact(m) == 0.0 {
      RoundTenths(0.0);
    } else {
      assert 0.84 <= raw <= 9.996;
      var r := Round(raw);
      assert 7.9 < r * 10.0 < 100.5;
      assert 8 <= (r * 10.0).Floor <= 100;
    }
  }

  /** The base score of a vector string: version 2 only; a string holding no vector
      gives ParseError and score 0; otherwise the rounded base equation of the leftmost
      vector, which lies in [0.0, 10.0]. */
  lemma CalculateBaseScoreSpec(metric: string, version: int)
    ensures version != 2 ==> CalculateBaseScore(metric, version) == Returned(0.0, Some(UnsupportedVersion))
    ensures version == 2 && !Parsable(metric) ==>
      CalculateBaseScore(metric, version) == Returned(0.0, Some(ParseError))
    ensures version == 2 && Parsable(metric) ==> exists k: nat, v ::
      OccursAt(Format(v), metric, k) && NoneBefore(metric, k)
      && CalculateBaseScore(metric, version) == Returned(VectorScore(v), None)
      && 0.0 <= VectorScore(v) <= 10.0
  {
    ParseBaseScoreSpec(metric);
    if version == 2 && Parsable(metric) {
      var k: nat, v :| OccursAt(Format(v), metric, k) && NoneBefore(metric, k)
        && ParseBaseScore(metric).value == Weights(v);
      VectorScoreRange(v);
    }
  }

  /** The notation of any vector, followed by any text, scores that vector's score. */
  lemma ScoreFormat(v: BaseVector, t: string)
    ensures CalculateBaseScore(Format(v) + t, 2) == Returned(VectorScore(v), None)
  {
    ParseFormat(v, t);
  }

  /** The vector of the repository's examples, AV:N/AC:L/Au:N/C:N/I:N/A:C. */
  const ExampleVector := BaseVector(Network, Low, NoAuthentication, NoImpact, NoImpact, Complete)

  /** The notation of the example vector. */
  lemma ExampleNotation(s: string)
    requires s == "AV:N/AC:L/Au:N/C:N/I:N/A:C"
    ensures Format(ExampleVector) == s
  {
  }

  /** The repository's parse example: AV:N/AC:L/Au:N/C:N/I:N/A:C gives the weights
      1.0, 0.71, 0.704, 0.0, 0.0 and 0.66. */
  lemma BaseParseExample(s: string)
    requires s == "AV:N/AC:L/Au:N/C:N/I:N/A:C"
    ensures ParseBaseScore(s) == Returned(BaseMetric(1.0, 0.71, 0.704, 0.0, 0.0, 0.66), None)
  {
    ExampleNotation(s);
    assert s + [] == s;
    ParseFormat(ExampleVector, []);
  }

  /** The repository's score example: the same vector scores 7.8 under version 2
      (version 3 is refused for every string, see CalculateBaseScoreSpec). */
  lemma BaseScoreExample(s: string)
    requires s == "AV:N/AC:L/Au:N/C:N/I:N/A:C"
    ensures CalculateBaseScore(s, 2) == Returned(7.8, None)
  {
    ExampleNotation(s);
    assert s + [] == s;
    ParseFormat(ExampleVector, []);
    ExampleVectorScore();
  }

  lemma ExampleVectorScore()
    ensures VectorScore(ExampleVector) == 7.8
  {
    var m := Weights(ExampleVector);
    assert Exploitability(m) == 9.9968;
    assert Impact(m) == 6.8706;
    assert RawBaseScore(m) == 7.78639008;
    RoundUnique(7.78639008, 7.8);
  }
}
