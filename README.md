# CVSS v2 base and temporal scoring

This project models the slimsec `cvss` Go package, a CVSS version 2 scorer, and
proves properties of the model. Everything is pure and works on strings and reals.

- **Base score.** `ParseBaseScore` finds the leftmost occurrence of the six-field
  base vector `AV:x/AC:y/Au:z/C:c/I:i/A:a` in a string. It maps each captured letter
  to its weight with a switch and returns a `BaseMetric` record. `CalculateBaseScore`
  accepts version 2 only. It evaluates the base equation
  `(0.6·Impact + 0.4·Exploitability − 1.5)·f(Impact)` and rounds half-up to one decimal.
- **Temporal score.** `ParseTemporalMetric` does the same for `E:x/RL:y/RC:z`. Here the
  codes can be several letters long (`POC`, `ND`, `OF`, `TF`, `UC`, `UR`).
  `CalculateTemporalScore` rounds the product of the three weights and a base score
  that the caller supplies.

The files are:

- `wrappers.dfy`: `Option`, the two error kinds, and `Returned`. `Returned` is Go's
  `(value, error)` pair. On failure the value is still there: the zero record or score 0.
- `rounding.dfy`: the rounding `floor(10x + 0.5) / 10` that both scores share.
- `pattern.dfy`: a matcher for the two regular expressions.
  - A pattern is a sequence of fields. Each field is a literal prefix followed by one
    capturing group of alternatives.
  - The alternatives are tried in order, with backtracking. This is the leftmost-first
    rule of Go's `regexp`.
  - The search takes the leftmost start position. That match is the first element of
    `FindAllStringSubmatch`'s result, the only element the parsers read.
  - Soundness and completeness are proved against a declarative description: the
    pattern spelled out with a choice of captures.
- `base.dfy`: the 18 base constants and the code datatypes with their guide weights.
  It also holds the switches, the parser, the base equation and their properties.
- `temporal.dfy`: the 14 temporal constants, the code datatypes, the switches, the
  parser, the temporal equation and their properties.

Vector notation is written by `Format(v)` for a vector `v` of codes. `Weights(v)` gives
the weights the CVSS v2 guide lists for those codes. `Parsable(s)` says that some
vector's notation occurs somewhere in `s`.

Some behaviour of the source that a reader of its names or tests might not expect:

- base.go and temporal.go define `ParseBaseScore` and `ParseTemporalMetric`.
  base_test.go:9 and temporal_test.go:9 call `ParseBaseMetric` and `ParseTemporalScore`,
  which the package does not define. The examples in the model call the defined names.
- The alternation inside each group is Go's leftmost-first: the first alternative that
  lets the rest of the expression match wins, not the longest. In every group no code
  is a prefix of another. So at most one way to match exists at a position
  (`Pattern.MatchUnique`, `Base.OneVectorPerPosition`, `Temporal.OneVectorPerPosition`),
  and the order of the alternatives does not change the result.
- The parsers search for the vector as a substring and do not anchor it. Text after a
  vector is ignored (`Base.ParseFormat`, `Temporal.ParseFormat`). Text before it is
  ignored only when no vector occurs in it (`Base.ParseAfterText`,
  `Temporal.ParseAfterText`); otherwise the leftmost vector wins
  (`Base.ParseBaseScoreSpec`, `Temporal.ParseTemporalMetricSpec`).

## Model

| member | source | states |
|---|---|---|
| Rounding.Round | base.go:77-78 | The rounded score is a whole number of tenths and lies in (x − 0.05, x + 0.05]. |
| Rounding.RoundHalfUp | base.go:78 | A value exactly half-way between two tenths rounds up to the upper one. |
| Rounding.RoundTenths | base.go:78 | A value already in tenths is left unchanged. |
| Rounding.RoundMonotone | base.go:78 | Rounding preserves the order of two values. |
| Rounding.RoundScaledDown | temporal.go:58 | For x ≥ 0 and a factor in [0, 1], the rounded scaled value is at most the rounded value. |
| Rounding.RoundUnique | base.go:78 | Round(x) is the one number of tenths r with r − 0.05 ≤ x < r + 0.05. |
| Pattern.FindFirst | base.go:87-91 | A result is a start position where the pattern matches, with that match's captures, and no position before it matches. None means no position matches. |
| Pattern.MatchFrom | base.go:86 | No contract of its own. It is specified by Pattern.MatchFromSound and Pattern.MatchFromComplete: it succeeds exactly where a fitting spelling occurs, with that spelling's captures. |
| Pattern.TryAlts | temporal.go:66 | No contract of its own. It is specified by Pattern.TryAltsSound and Pattern.TryAltsFinds: in a prefix-free group it takes the one alternative that occurs. |
| Pattern.MatchFromSound | base.go:86 | Whatever the matcher returns fits the groups, and the pattern spelled with those captures occurs at the position. |
| Pattern.TryAltsSound | temporal.go:66 | The alternative tried first that leads to a match of the rest is a member of the group, and its spelling occurs there. |
| Pattern.MatchFromComplete | temporal.go:66 | If the groups are prefix-free and a fitting spelling occurs at a position, the matcher returns exactly those captures and that end. |
| Pattern.TryAltsFinds | temporal.go:66 | In a prefix-free group, the one alternative that occurs is the one the ordered alternation takes. |
| Pattern.MatchUnique | temporal.go:66 | With prefix-free groups, two fitting spellings at the same position have the same captures. |
| Pattern.LeftmostAtStart | base.go:87 | A spelling at the start of a string is the leftmost match, whatever text follows it. |
| Base.FormatIsPattern | base.go:86 | A base vector's notation is the base pattern spelled with its letters, and those letters fit the character classes. |
| Base.FitsIsVector | base.go:86 | Every capture choice the base pattern admits is the letters of some vector; by Base.CapturesInjective that vector is unique. |
| Base.CapturesInjective | base.go:86 | Different vectors have different capture lists. |
| Base.OneVectorPerPosition | base.go:86 | Two vectors whose notations occur at the same position are equal. |
| Base.BasePatternPrefixFree | base.go:86 | The character classes of the base pattern are prefix-free. |
| Base.FormatMatches | base.go:86 | Where a vector's notation occurs, the matcher captures exactly its letters. |
| Base.MatchIsFormat | base.go:86 | Where the matcher succeeds, the notation of the captured vector occurs. |
| Base.MatchAtIffFormat | base.go:86 | The matcher succeeds at a position if and only if some vector's notation occurs there. |
| Base.FindFirstIsLeftmostVector | base.go:86-91 | The search fails if and only if no vector occurs. Otherwise it finds the leftmost occurrence and captures that vector's letters. |
| Base.AccessVectorCase | base.go:94-101 | No contract of its own. Base.SwitchesMatchGuide and Base.ParsedFieldsInTables state it: each AV letter maps to its weight, and no captured letter reaches the default. |
| Base.AccessComplexityCase | base.go:104-111 | No contract of its own. Specified by Base.SwitchesMatchGuide and Base.ParsedFieldsInTables. |
| Base.AuthenticationCase | base.go:114-121 | No contract of its own. Specified by Base.SwitchesMatchGuide and Base.ParsedFieldsInTables. |
| Base.ConfidentialityCase | base.go:124-131 | No contract of its own. Specified by Base.SwitchesMatchGuide and Base.ParsedFieldsInTables. |
| Base.IntegrityCase | base.go:134-141 | No contract of its own. Specified by Base.SwitchesMatchGuide and Base.ParsedFieldsInTables. |
| Base.AvailabilityCase | base.go:144-151 | No contract of its own. Specified by Base.SwitchesMatchGuide and Base.ParsedFieldsInTables. |
| Base.ParseBaseScore | base.go:84-155 | No contract of its own. Specified by Base.ParseBaseScoreSpec, Base.ParseFormat and Base.ParseAfterText. |
| Base.Exploitability | base.go:69 | No contract of its own. Specified by Base.ExploitabilityBounds. |
| Base.Impact | base.go:70 | No contract of its own. Specified by Base.ImpactBounds and Base.ImpactZeroIff. |
| Base.RawBaseScore | base.go:69-75 | No contract of its own. Specified by Base.VectorScoreRange. |
| Base.CalculateBaseScore | base.go:59-80 | No contract of its own. Specified by Base.CalculateBaseScoreSpec and Base.ScoreFormat. |
| Base.SwitchesMatchGuide | base.go:93-151 | Each of the six switches maps each code's letter to the weight that base.go:13-43 declares for it. |
| Base.ParseBaseScoreSpec | base.go:84-155 | The parse fails if and only if no vector occurs, and then it returns the zero record and ParseError. Otherwise it returns the weights of the leftmost vector. |
| Base.ParseFormat | base.go:84-155 | Round trip: any vector's notation, followed by any text, parses to that vector's weights with no error. |
| Base.ParseAfterText | base.go:84-155 | A vector's notation, preceded by text in which no vector occurs and followed by any text, parses to that vector's weights with no error. |
| Base.ParsedFieldsInTables | base.go:93-151 | Each field of a successful parse is one of its three constants, so the zero-fill default is never reached. |
| Base.ImpactZeroIff | base.go:70-74 | The impact is 0 (so f(Impact) is 0) if and only if C, I and A are all N. |
| Base.ExploitabilityBounds | base.go:69 | The exploitability subscore lies in [1.24425, 9.9968]. |
| Base.ImpactBounds | base.go:70 | The impact subscore is 0 or lies in [2.86275, 10.00084536]. |
| Base.VectorScoreRange | base.go:69-78 | Every vector's base score lies in [0.0, 10.0], and it is 0.0 if and only if C, I and A are all N. |
| Base.CalculateBaseScoreSpec | base.go:59-80 | A version other than 2 gives 0 and UnsupportedVersion for every string. With no vector the result is 0 and ParseError. Otherwise the result is the leftmost vector's score, which lies in [0, 10]. |
| Base.ScoreFormat | base.go:59-80 | Any vector's notation, followed by any text, scores that vector's score under version 2. |
| Base.BaseParseExample | base_test.go:5-16 | AV:N/AC:L/Au:N/C:N/I:N/A:C parses to (1.0, 0.71, 0.704, 0.0, 0.0, 0.66). |
| Base.BaseScoreExample | base_test.go:17-31 | AV:N/AC:L/Au:N/C:N/I:N/A:C scores 7.8 under version 2. |
| Base.ExampleVectorScore | base_test.go:27 | The example vector's base equation is 7.78639008, which rounds to 7.8. |
| Temporal.FormatIsPattern | temporal.go:66 | A temporal vector's notation is the temporal pattern spelled with its codes, and the codes fit the groups. |
| Temporal.FitsIsVector | temporal.go:66 | Every capture choice the temporal pattern admits is the codes of exactly one vector. |
| Temporal.TemporalPatternPrefixFree | temporal.go:66 | Within each group no code is a prefix of another, e.g. U/UC/UR and POC/ND. |
| Temporal.FormatMatches | temporal.go:66 | Where a vector's notation occurs, the matcher captures its codes whole, e.g. POC and not a prefix of it. |
| Temporal.MatchIsFormat | temporal.go:66 | Where the matcher succeeds, the notation of the captured vector occurs. |
| Temporal.MatchAtIffFormat | temporal.go:66 | The matcher succeeds at a position if and only if some vector's notation occurs there. |
| Temporal.OneVectorPerPosition | temporal.go:66 | Two vectors whose notations occur at the same position are equal. The multi-letter codes cannot be split differently. |
| Temporal.CapturesInjective | temporal.go:66 | Different vectors have different capture lists. |
| Temporal.FindFirstIsLeftmostVector | temporal.go:66-71 | The search fails if and only if no vector occurs. Otherwise it finds the leftmost occurrence and captures that vector's codes. |
| Temporal.ExploitabilityCase | temporal.go:74-85 | No contract of its own. Temporal.SwitchesMatchGuide and Temporal.ParsedFieldsInTables state it: each E code maps to its weight, and no captured code reaches the default. |
| Temporal.RemediationLevelCase | temporal.go:88-99 | No contract of its own. Specified by Temporal.SwitchesMatchGuide and Temporal.ParsedFieldsInTables. |
| Temporal.ReportConfidenceCase | temporal.go:102-111 | No contract of its own. Specified by Temporal.SwitchesMatchGuide and Temporal.ParsedFieldsInTables. |
| Temporal.ParseTemporalMetric | temporal.go:64-114 | No contract of its own. Specified by Temporal.ParseTemporalMetricSpec, Temporal.ParseFormat and Temporal.ParseAfterText. |
| Temporal.Multiplier | temporal.go:58 | No contract of its own. Specified by Temporal.MultiplierBounds. |
| Temporal.TemporalScore | temporal.go:58 | No contract of its own. Specified by Temporal.UnitMultiplier, Temporal.ScaledDown and Temporal.NeverExceedsBase. |
| Temporal.CalculateTemporalScore | temporal.go:47-60 | No contract of its own. Specified by Temporal.CalculateTemporalScoreSpec, Temporal.ScoreFormat and Temporal.ScoreAtMostBase. |
| Temporal.SwitchesMatchGuide | temporal.go:73-111 | Each of the three switches maps each code to the weight that temporal.go:13-35 declares for it. |
| Temporal.ParseTemporalMetricSpec | temporal.go:64-114 | The parse fails if and only if no vector occurs, and then it returns the zero record and ParseError. Otherwise it returns the weights of the leftmost vector. |
| Temporal.FoundAtStart | temporal.go:67 | In a string that starts with a vector's notation, the leftmost match is that vector's, at position 0. |
| Temporal.ParseFormat | temporal.go:64-114 | Round trip: any vector's notation, followed by any text, parses to that vector's weights with no error. |
| Temporal.ParseAfterText | temporal.go:64-114 | A vector's notation, preceded by text in which no vector occurs and followed by any text, parses to that vector's weights with no error. |
| Temporal.ParsedFieldsInTables | temporal.go:73-111 | Each field of a successful parse is one of its table constants, so the zero-fill default is never reached. |
| Temporal.WeightsBounded | temporal.go:13-35 | Every vector's weights lie in [0.85, 1], [0.87, 1] and [0.90, 1]. |
| Temporal.MultiplierBounds | temporal.go:58 | For bounded weights, the product E·RL·RC lies in [0.85·0.87·0.90, 1]. |
| Temporal.ScoreFormat | temporal.go:47-60 | Any vector's notation, followed by any text, scores the rounded product of that vector's multiplier and the base score. |
| Temporal.UnitMultiplier | temporal.go:58 | With multiplier 1 the temporal equation gives the rounded base score. |
| Temporal.AllNotDefined | temporal.go:58 | E:ND/RL:ND/RC:ND scores Round(base score), which equals the base score when that is already in tenths. |
| Temporal.ScaledDown | temporal.go:58 | A multiplier in [0, 1] never raises the rounded, non-negative base score. |
| Temporal.HalfTenthBoundary | temporal.go:58 | E:F/RL:U/RC:C with base score 3.0 gives the product 2.85 exactly, which rounds half-up to 2.9. |
| Temporal.NeverExceedsBase | temporal.go:58 | For bounded weights and a base score ≥ 0, the temporal score is at most the rounded base score. |
| Temporal.ScoreAtMostBase | temporal.go:47-60 | For any string and a base score ≥ 0, a successful temporal score is at most the rounded base score. |
| Temporal.CalculateTemporalScoreSpec | temporal.go:47-60 | A version other than 2 gives 0 and UnsupportedVersion for every string. With no vector the result is 0 and ParseError. Otherwise the result is the rounded product of the leftmost vector's multiplier and the base score. |
| Temporal.TemporalParseExample | temporal_test.go:5-16 | E:U/RL:W/RC:UC parses to (0.85, 0.95, 0.90). |
| Temporal.TemporalScoreExample | temporal_test.go:18-32 | E:F/RL:OF/RC:C with base score 7.8 scores 6.4 under version 2. |
| Temporal.ExampleVectorScore | temporal_test.go:28 | 0.95 · 0.87 · 1 · 7.8 = 6.4467 rounds to 6.4. |

## Left out

- Base.CalculateBaseScoreSpec: states the score over exact real numbers, not IEEE binary64. The weights are decimal constants that binary64 cannot hold exactly. A raw score within rounding error of a .x5 boundary could round differently in Go. The source's `impact == 0` is a float comparison. It is modelled as exact equality, and for the table weights the impact is exactly zero only when C, I and A are all N.
- Temporal.CalculateTemporalScoreSpec: computes the product `E·RL·RC·baseScore` over exact reals, not binary64. A product that lands exactly on a half tenth is where the two can part. E:F/RL:U/RC:C with base score 3.0 gives 0.95 · 3.0 = 2.85 exactly, which the model rounds up to 2.9 (`Temporal.HalfTenthBoundary`). In binary64, 0.95 is slightly below 0.95, so the product falls below 2.85 and the Go expression would round it to 2.8. Such a case needs a product that is exactly a half tenth, which only some pairs of a vector and a base score in tenths give.
- Go's `regexp` engine is not part of this model. The two fixed expressions are modelled by the field matcher in `pattern.dfy`. `FindAllStringSubmatch` returns all non-overlapping matches, but only the first is used, so only that one is modelled.
- Error messages ("This CVSS version is not supported", "Could not parse metric string") are modelled as the two `CvssError` values. Their text is not modelled.
- The test files call `ParseBaseMetric` and `ParseTemporalScore`, which the package does not define, so the Go tests cannot build as written. The examples are stated against `ParseBaseScore` and `ParseTemporalMetric`.
- Base.BaseScoreExample: states only the version-2 half of the score test. The version-3 half is a case of `Base.CalculateBaseScoreSpec`, which refuses every version other than 2.
- Temporal.TemporalScoreExample: states only the version-2 half of the test. The version-3 half is a case of `Temporal.CalculateTemporalScoreSpec`.
- The temporal base score is a parameter, as in the source. Nothing checks that it came from `CalculateBaseScore` or that it lies in [0, 10].
- Environmental metrics and CVSS v3 are not implemented by the package and are not modelled.
