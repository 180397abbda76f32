/** The scoring engine: one weighted mean over the six core and six bonus
    criteria, with weights chosen by the candidate's level. */
module Scoring {
  import opened Text
  import opened Numeric
  import opened Levels

  const CoreKeys: set<string> := {"format", "experience", "skills", "soft_skills", "education", "field_match"}

  const BonusKeys: set<string> := {"portfolio", "certificates", "awards", "scholarships", "side_projects", "community"}

  /** The score a bonus criterion gets when the evaluator left it out. */
  const NeutralBonusScore: int := 35

  /** The keys of every level's weight table, in the order the tables list them. */
  const CriterionOrder: seq<string> :=
    ["format", "experience", "skills", "soft_skills", "education", "field_match",
     "portfolio", "certificates", "awards", "scholarships", "side_projects", "community"]

  /** The weight table of a level, one weight per key of `CriterionOrder`. */
  function LevelWeights(level: Level): (ws: seq<real>)
    ensures |ws| == |CriterionOrder|
  {
    match level
    //          format experience skills soft education field | portfolio certs awards scholar. side community
    case Intern  => [15.0, 15.0, 20.0, 15.0, 20.0, 0.0,   5.0, 3.0, 3.0, 2.0, 1.0, 1.0]
    case Fresher => [10.0, 25.0, 20.0, 10.0, 15.0, 0.0,   8.0, 5.0, 3.0, 2.0, 1.0, 1.0]
    case Junior  => [ 8.0, 35.0, 25.0, 15.0,  5.0, 0.0,   7.0, 3.0, 0.5, 0.5, 0.5, 0.5]
    case Mid     => [ 5.0, 45.0, 25.0, 15.0,  3.0, 0.0,   5.0, 2.0, 0.0, 0.0, 0.0, 0.0]
    case Senior  => [ 5.0, 60.0, 25.0, 10.0,  0.0, 0.0,   0.0, 0.0, 0.0, 0.0, 0.0, 0.0]
  }

  /** Every spelling `NormalizeLevel` recognises, with the level it stands for. */
  const LevelSpellings: map<string, Level> :=
    map["intern" := Intern, "fresher" := Fresher, "junior" := Junior, "mid" := Mid, "senior" := Senior,
        "internship" := Intern, "intern-level" := Intern,
        "jr" := Junior, "junior-level" := Junior,
        "middle" := Mid, "mid-level" := Mid,
        "sr" := Senior, "senior-level" := Senior, "lead" := Senior]

  /** Maps a free-form level onto a weight table: first the five table keys,
      then the aliases, and anything else to junior. A missing level (`None`
      in the service) arrives here as "". */
  function NormalizeLevel(level: string): (r: Level)
    ensures Lower(Strip(level)) in LevelSpellings ==> r == LevelSpellings[Lower(Strip(level))]
    ensures Lower(Strip(level)) !in LevelSpellings ==> r == Junior
  {
    LevelOfSpelling(Lower(Strip(level)))
  }

  /** The membership tests of `_normalize_level` on the stripped, lowered level. */
  function LevelOfSpelling(l: string): (r: Level)
    ensures l in LevelSpellings ==> r == LevelSpellings[l]
    ensures l !in LevelSpellings ==> r == Junior
  {
    if l == "intern" then Intern
    else if l == "fresher" then Fresher
    else if l == "junior" then Junior
    else if l == "mid" then Mid
    else if l == "senior" then Senior
    else if l in {"internship", "intern-level"} then Intern
    else if l in {"jr", "junior-level"} then Junior
    else if l in {"middle", "mid-level"} then Mid
    else if l in {"sr", "senior-level", "lead"} then Senior
    else Junior
  }

  lemma LowerOfLowered(s: string)
    requires forall i :: 0 <= i < |s| ==> LowerChar(s[i]) == s[i]
    ensures Lower(s) == s
  {
  }

  /** The spelling of every level is recognised as that level. */
  lemma NormalizeName(l: Level)
    ensures NormalizeLevel(Name(l)) == l
  {
    var w := Name(l);
    assert w in LevelSpellings && LevelSpellings[w] == l;
    assert |w| > 0 && forall i :: 0 <= i < |w| ==> 'a' <= w[i] <= 'z';
    NormalizeWord(w);
  }

  /** A lower-case word with no padding is looked up as it is. */
  lemma NormalizeWord(w: string)
    requires |w| > 0 && forall i :: 0 <= i < |w| ==> 'a' <= w[i] <= 'z'
    ensures NormalizeLevel(w) == LevelOfSpelling(w)
  {
    StripUnpadded(w);
    LowerOfLowered(w);
  }

  /** Normalising an already normalised level changes nothing. */
  lemma NormalizeIdempotent(level: string)
    ensures NormalizeLevel(Name(NormalizeLevel(level))) == NormalizeLevel(level)
  {
    NormalizeName(NormalizeLevel(level));
  }

  /** Letter case does not matter. */
  lemma NormalizeIgnoresCase(level: string)
    ensures NormalizeLevel(Lower(level)) == NormalizeLevel(level)
  {
    StripLower(level);
    LowerIdempotent(Strip(level));
  }

  /** White space around the level does not matter. */
  lemma NormalizeIgnoresPadding(w1: string, level: string, w2: string)
    requires AllIn(w1, 0, |w1|, IsSpace) && AllIn(w2, 0, |w2|, IsSpace)
    ensures NormalizeLevel(w1 + level + w2) == NormalizeLevel(level)
  {
    StripIgnoresPadding(w1, level, w2);
  }

  /** The value the evaluator gave under "score" (`comp.get("score", 0)`). */
  datatype ScoreField =
    | Absent                  // no "score" key: the default 0
    | IntValue(n: int)        // an int (or a bool)
    | FloatValue(x: real)     // a finite float
    | NanValue                // float('nan'): `int` raises ValueError
    | TextValue(s: string)    // a string, which `int` may or may not parse
    | OtherValue              // None, a list, a dict: `int` raises TypeError

  /** One criterion entry of `core_scores` or `bonus_scores`. */
  datatype Entry =
    | Falsy                   // None, {}, 0, "" and other falsy values
    | NonDict                 // a truthy value that is not a dict
    | Record(score: ScoreField) // a non-empty dict

  /** `int(comp.get("score", 0))`, or 0 where `int` raises. */
  function FieldValue(f: ScoreField): int
  {
    match f
    case Absent => 0
    case IntValue(n) => n
    case FloatValue(x) => Trunc(x)
    case NanValue => 0
    case TextValue(s) => (match ParseInt(s) case Some(n) => n case None => 0)
    case OtherValue => 0
  }

  /** The score a key takes before clamping: the dict's score, or the default
      for a missing, falsy or non-dict entry (neutral for a bonus key, 0 otherwise). */
  function RawScore(all: map<string, Entry>, key: string): int
  {
    if key in all && all[key].Record? then FieldValue(all[key].score)
    else if key in BonusKeys then NeutralBonusScore
    else 0
  }

  /** `max(0, min(100, v))`. */
  function Clamp(v: int): (r: int)
    ensures 0 <= r <= 100
    ensures 0 <= v <= 100 ==> r == v
    ensures v < 0 ==> r == 0
    ensures v > 100 ==> r == 100
  {
    if v < 0 then 0 else if v > 100 then 100 else v
  }

  /** The score key `key` contributes, clamped to [0, 100]: a dict entry's own
      score, otherwise 35 for a bonus key and 0 for any other key. */
  function CountedScore(all: map<string, Entry>, key: string): (r: int)
    ensures 0 <= r <= 100
    ensures key in all && all[key].Record? ==> r == Clamp(FieldValue(all[key].score))
    ensures !(key in all && all[key].Record?) && key in BonusKeys ==> r == NeutralBonusScore
    ensures !(key in all && all[key].Record?) && key !in BonusKeys ==> r == 0
  {
    Clamp(RawScore(all, key))
  }

  /** The counted score of every key, in the order of `CriterionOrder`. */
  function Counts(all: map<string, Entry>): (cs: seq<int>)
    ensures |cs| == |CriterionOrder|
    ensures forall i :: 0 <= i < |cs| ==> cs[i] == CountedScore(all, CriterionOrder[i])
  {
    seq(|CriterionOrder|, i requires 0 <= i < |CriterionOrder| => CountedScore(all, CriterionOrder[i]))
  }

  /** The weighted sum of the scores `cs` over the first `n` entries of the
      weight table `ws`; an entry whose weight is not positive adds nothing. */
  function WeightedSum(ws: seq<real>, cs: seq<int>, n: nat): real
    requires n <= |ws| && n <= |cs|
  {
    if n == 0 then 0.0
    else
      var w := ws[n - 1];
      WeightedSum(ws, cs, n - 1) + (if w > 0.0 then cs[n - 1] as real * w else 0.0)
  }

  /** The sum of the positive weights among the first `n` of `ws`. */
  function TotalWeight(ws: seq<real>, n: nat): real
    requires n <= |ws|
  {
    if n == 0 then 0.0
    else
      var w := ws[n - 1];
      TotalWeight(ws, n - 1) + (if w > 0.0 then w else 0.0)
  }

  /** The overall score: `core_scores` updated by `bonus_scores`, then scored
      with the weight table of the normalised level. */
  function OverallScore(level: string, coreScores: map<string, Entry>, bonusScores: map<string, Entry>): (r: int)
    ensures 0 <= r <= 100
  {
    ScoreWith(LevelWeights(NormalizeLevel(level)), Counts(coreScores + bonusScores))
  }

  /** The rounded weighted mean of the scores `cs` under the weight table
      `ws`, clamped to [0, 100]; 0 when no weight is positive. */
  function ScoreWith(ws: seq<real>, cs: seq<int>): (r: int)
    requires |ws| == |cs|
    ensures 0 <= r <= 100
  {
    var total := TotalWeight(ws, |ws|);
    if total <= 0.0 then 0
    else Clamp(RoundHalfEven(WeightedSum(ws, cs, |ws|) / total))
  }

  /** The service's `calculate_overall_score`. */
  method CalculateOverallScore(level: string, coreScores: map<string, Entry>, bonusScores: map<string, Entry>)
    returns (overall: int)
    ensures overall == OverallScore(level, coreScores, bonusScores)
    ensures 0 <= overall <= 100
  {
    var norm := NormalizeLevel(level);
    var weights := LevelWeights(norm);
    var allScores: map<string, Entry> := map[];
    allScores := allScores + coreScores;
    allScores := allScores + bonusScores;
    assert allScores == coreScores + bonusScores;
    var weightedSum, totalWeight := AccumulateScores(weights, allScores);
    if totalWeight <= 0.0 {
      return 0;
    }
    overall := Clamp(RoundHalfEven(weightedSum / totalWeight));
  }

  /** The loop of `calculate_overall_score` over the weight table: skips the
      keys whose weight is not positive, and adds each other key's clamped
      score times its weight, and its weight. */
  method AccumulateScores(weights: seq<real>, allScores: map<string, Entry>)
    returns (weightedSum: real, totalWeight: real)
    requires |weights| == |CriterionOrder|
    ensures weightedSum == WeightedSum(weights, Counts(allScores), |weights|)
    ensures totalWeight == TotalWeight(weights, |weights|)
  {
    ghost var cs := Counts(allScores);
    totalWeight, weightedSum := 0.0, 0.0;
    for i := 0 to |weights|
      invariant weightedSum == WeightedSum(weights, cs, i)
      invariant totalWeight == TotalWeight(weights, i)
    {
      var key, weight := CriterionOrder[i], weights[i];
      if weight <= 0.0 {
        assert WeightedSum(weights, cs, i + 1) == WeightedSum(weights, cs, i);
        continue;
      }
      var scoreVal: int;
      if key in allScores && allScores[key].Record? {
        scoreVal := FieldValue(allScores[key].score);
      } else if key in BonusKeys {
        scoreVal := NeutralBonusScore;
      } else {
        scoreVal := 0;
      }
      scoreVal := Clamp(scoreVal);
      assert scoreVal == cs[i];
      SumsStep(weights, cs, i, weightedSum, totalWeight, scoreVal, weight);
      weightedSum := weightedSum + scoreVal as real * weight;
      totalWeight := totalWeight + weight;
    }
  }

  /** One more positive weight adds its weighted score and itself to the sums. */
  lemma SumsStep(ws: seq<real>, cs: seq<int>, i: nat, sum: real, total: real, v: int, w: real)
    requires i < |ws| && i < |cs| && w == ws[i] > 0.0 && v == cs[i]
    requires sum == WeightedSum(ws, cs, i) && total == TotalWeight(ws, i)
    ensures sum + v as real * w == WeightedSum(ws, cs, i + 1)
    ensures total + w == TotalWeight(ws, i + 1)
  {
  }

  // ---------------------------------------------------------------------------
  // The weight tables

  /** Every weight is non-negative, `field_match` weighs nothing at every level,
      and the positive weights of every level add up to 100, so the "total
      weight is 0" fallback can never be taken. */
  lemma WeightTablesWellFormed(level: Level)
    ensures forall i :: 0 <= i < |CriterionOrder| ==> LevelWeights(level)[i] >= 0.0
    ensures LevelWeights(level)[5] == 0.0
    ensures TotalWeight(LevelWeights(level), |CriterionOrder|) == 100.0
  {
    var ws := LevelWeights(level);
    TotalOfNonNegative(ws);
  }

  /** With no negative weight, the total is the plain sum of the table. */
  lemma TotalOfNonNegative(ws: seq<real>)
    requires |ws| == 12 && forall i :: 0 <= i < 12 ==> ws[i] >= 0.0
    ensures TotalWeight(ws, 12) == ws[0] + ws[1] + ws[2] + ws[3] + ws[4] + ws[5]
                                 + ws[6] + ws[7] + ws[8] + ws[9] + ws[10] + ws[11]
  {
    assert TotalWeight(ws, 1) == ws[0];
    assert TotalWeight(ws, 2) == ws[0] + ws[1];
    assert TotalWeight(ws, 4) == TotalWeight(ws, 2) + ws[2] + ws[3];
    assert TotalWeight(ws, 6) == TotalWeight(ws, 4) + ws[4] + ws[5];
    assert TotalWeight(ws, 8) == TotalWeight(ws, 6) + ws[6] + ws[7];
    assert TotalWeight(ws, 10) == TotalWeight(ws, 8) + ws[8] + ws[9];
  }

  // ---------------------------------------------------------------------------
  // What the result depends on

  /** Scores that agree on every positively weighted entry give the same weighted sum. */
  lemma {:induction false} WeightedSumCongruent(ws: seq<real>, c1: seq<int>, c2: seq<int>, n: nat)
    requires n <= |ws| && n <= |c1| && n <= |c2|
    requires forall i :: 0 <= i < n && ws[i] > 0.0 ==> c1[i] == c2[i]
    ensures WeightedSum(ws, c1, n) == WeightedSum(ws, c2, n)
  {
    if n > 0 {
      WeightedSumCongruent(ws, c1, c2, n - 1);
    }
  }

  /** The result depends only on the counted scores of positively weighted keys. */
  lemma OverallScoreCongruent(level: string, c1: map<string, Entry>, b1: map<string, Entry>,
                              c2: map<string, Entry>, b2: map<string, Entry>)
    requires forall i :: 0 <= i < |CriterionOrder| && LevelWeights(NormalizeLevel(level))[i] > 0.0 ==>
               CountedScore(c1 + b1, CriterionOrder[i]) == CountedScore(c2 + b2, CriterionOrder[i])
    ensures OverallScore(level, c1, b1) == OverallScore(level, c2, b2)
  {
    var ws := LevelWeights(NormalizeLevel(level));
    WeightedSumCongruent(ws, Counts(c1 + b1), Counts(c2 + b2), |ws|);
  }

  /** Any entry for a key whose weight is not positive, or none at all, gives
      the same result as leaving that key out of both maps. */
  lemma ZeroWeightKeyIgnored(level: string, coreScores: map<string, Entry>, bonusScores: map<string, Entry>,
                             i: nat, e: Entry)
    requires i < |CriterionOrder| && LevelWeights(NormalizeLevel(level))[i] <= 0.0
    ensures OverallScore(level, coreScores, bonusScores[CriterionOrder[i] := e])
         == OverallScore(level, coreScores - {CriterionOrder[i]}, bonusScores - {CriterionOrder[i]})
  {
    var key := CriterionOrder[i];
    var ws := LevelWeights(NormalizeLevel(level));
    var a, b := coreScores + bonusScores[key := e], (coreScores - {key}) + (bonusScores - {key});
    forall j | 0 <= j < |ws| && ws[j] > 0.0
      ensures CountedScore(a, CriterionOrder[j]) == CountedScore(b, CriterionOrder[j])
    {
      var c := CriterionOrder[j];
      assert c != key;
      assert (c in a) == (c in b);
      if c in a { assert a[c] == b[c]; }
    }
    OverallScoreCongruent(level, coreScores, bonusScores[key := e], coreScores - {key}, bonusScores - {key});
  }

  /** `field_match` has weight 0 at every level, so it never counts. */
  lemma FieldMatchIgnored(level: string, coreScores: map<string, Entry>, bonusScores: map<string, Entry>, e: Entry)
    ensures OverallScore(level, coreScores, bonusScores["field_match" := e])
         == OverallScore(level, coreScores - {"field_match"}, bonusScores - {"field_match"})
  {
    WeightTablesWellFormed(NormalizeLevel(level));
    ZeroWeightKeyIgnored(level, coreScores, bonusScores, 5, e);
  }

  /** For a senior every bonus weight is 0: removing every bonus entry, from
      either map, changes nothing. */
  lemma SeniorIgnoresBonus(level: string, coreScores: map<string, Entry>, bonusScores: map<string, Entry>)
    requires NormalizeLevel(level) == Senior
    ensures OverallScore(level, coreScores, bonusScores) == OverallScore(level, coreScores - BonusKeys, bonusScores - BonusKeys)
  {
    var ws := LevelWeights(Senior);
    var a, b := coreScores + bonusScores, (coreScores - BonusKeys) + (bonusScores - BonusKeys);
    forall j | 0 <= j < |ws| && ws[j] > 0.0
      ensures CountedScore(a, CriterionOrder[j]) == CountedScore(b, CriterionOrder[j])
    {
      assert j < 4;
      assert CriterionOrder[j] !in BonusKeys;
    }
    OverallScoreCongruent(level, coreScores, bonusScores, coreScores - BonusKeys, bonusScores - BonusKeys);
  }

  /** `bonus_scores` is applied last, so its entry for a key shadows any entry
      `core_scores` has for the same key. */
  lemma BonusEntryWins(level: string, coreScores: map<string, Entry>, bonusScores: map<string, Entry>,
                       key: string, e: Entry)
    requires key in bonusScores
    ensures OverallScore(level, coreScores[key := e], bonusScores) == OverallScore(level, coreScores, bonusScores)
  {
    assert coreScores[key := e] + bonusScores == coreScores + bonusScores;
  }

  /** A core criterion that is missing, falsy or not a dict counts as a score of 0. */
  lemma MissingCoreCountsZero(level: string, coreScores: map<string, Entry>, bonusScores: map<string, Entry>, key: string)
    requires key in CoreKeys
    requires key !in coreScores + bonusScores || !(coreScores + bonusScores)[key].Record?
    ensures OverallScore(level, coreScores, bonusScores) == OverallScore(level, coreScores, bonusScores[key := Record(IntValue(0))])
  {
    assert key !in BonusKeys;
    var m1, m2 := coreScores + bonusScores, coreScores + bonusScores[key := Record(IntValue(0))];
    forall c ensures CountedScore(m1, c) == CountedScore(m2, c) {
      if c != key {
        assert (c in m1) == (c in m2);
        if c in m1 { assert m1[c] == m2[c]; }
      }
    }
    CountsAgree(m1, m2);
  }

  /** A bonus criterion that is missing, falsy or not a dict counts as the neutral score 35. */
  lemma MissingBonusCountsNeutral(level: string, coreScores: map<string, Entry>, bonusScores: map<string, Entry>, key: string)
    requires key in BonusKeys
    requires key !in coreScores + bonusScores || !(coreScores + bonusScores)[key].Record?
    ensures OverallScore(level, coreScores, bonusScores)
         == OverallScore(level, coreScores, bonusScores[key := Record(IntValue(NeutralBonusScore))])
  {
    var m1, m2 := coreScores + bonusScores, coreScores + bonusScores[key := Record(IntValue(NeutralBonusScore))];
    forall c ensures CountedScore(m1, c) == CountedScore(m2, c) {
      if c != key {
        assert (c in m1) == (c in m2);
        if c in m1 { assert m1[c] == m2[c]; }
      }
    }
    CountsAgree(m1, m2);
  }

  /** A dict whose "score" is missing, NaN, of the wrong type, or a string
      `int` rejects counts as 0, for a bonus key as for a core key. */
  lemma UnreadableScoreCountsZero(level: string, coreScores: map<string, Entry>, bonusScores: map<string, Entry>,
                                  key: string, f: ScoreField)
    requires f.Absent? || f.NanValue? || f.OtherValue? || (f.TextValue? && ParseInt(f.s).None?)
    ensures OverallScore(level, coreScores, bonusScores[key := Record(f)])
         == OverallScore(level, coreScores, bonusScores[key := Record(IntValue(0))])
  {
    assert FieldValue(f) == 0;
    var m1, m2 := coreScores + bonusScores[key := Record(f)], coreScores + bonusScores[key := Record(IntValue(0))];
    forall c ensures CountedScore(m1, c) == CountedScore(m2, c) {
      if c != key {
        assert (c in m1) == (c in m2);
        if c in m1 { assert m1[c] == m2[c]; }
      }
    }
    CountsAgree(m1, m2);
  }

  /** Two maps that give every key the same counted score have the same counts. */
  lemma CountsAgree(m1: map<string, Entry>, m2: map<string, Entry>)
    requires forall c :: CountedScore(m1, c) == CountedScore(m2, c)
    ensures Counts(m1) == Counts(m2)
  {
    assert |Counts(m1)| == |Counts(m2)|;
    forall i | 0 <= i < |CriterionOrder| ensures Counts(m1)[i] == Counts(m2)[i] {
      assert CountedScore(m1, CriterionOrder[i]) == CountedScore(m2, CriterionOrder[i]);
    }
  }

  // ---------------------------------------------------------------------------
  // The result is a weighted mean

  /** When every positively weighted score is `s`, the weighted sum is `s`
      times the total weight. */
  lemma {:induction false} WeightedSumUniform(ws: seq<real>, cs: seq<int>, n: nat, s: int)
    requires n <= |ws| && n <= |cs|
    requires forall i :: 0 <= i < n && ws[i] > 0.0 ==> cs[i] == s
    ensures WeightedSum(ws, cs, n) == s as real * TotalWeight(ws, n)
  {
    if n > 0 {
      WeightedSumUniform(ws, cs, n - 1, s);
      var w := ws[n - 1];
      Distribute(s as real, TotalWeight(ws, n - 1), if w > 0.0 then w else 0.0);
    }
  }

  lemma Distribute(s: real, t: real, p: real)
    ensures s * t + s * p == s * (t + p)
  {
  }

  /** If every counted score is the same `s`, the result is `s`. */
  lemma UniformScores(level: string, coreScores: map<string, Entry>, bonusScores: map<string, Entry>, s: int)
    requires forall i :: 0 <= i < |CriterionOrder| ==> CountedScore(coreScores + bonusScores, CriterionOrder[i]) == s
    ensures OverallScore(level, coreScores, bonusScores) == s
  {
    var ws := LevelWeights(NormalizeLevel(level));
    var cs := Counts(coreScores + bonusScores);
    WeightTablesWellFormed(NormalizeLevel(level));
    WeightedSumUniform(ws, cs, |ws|, s);
    assert 0 <= s <= 100 by {
      assert cs[0] == s;
    }
    assert WeightedSum(ws, cs, |ws|) / TotalWeight(ws, |ws|) == s as real;
  }

  /** Higher scores give a weighted sum at least as high. */
  lemma {:induction false} WeightedSumMonotone(ws: seq<real>, c1: seq<int>, c2: seq<int>, n: nat)
    requires n <= |ws| && n <= |c1| && n <= |c2|
    requires forall i :: 0 <= i < n && ws[i] > 0.0 ==> c1[i] <= c2[i]
    ensures WeightedSum(ws, c1, n) <= WeightedSum(ws, c2, n)
  {
    if n > 0 {
      WeightedSumMonotone(ws, c1, c2, n - 1);
      var w := ws[n - 1];
      if w > 0.0 {
        MulMonotone(c1[n - 1] as real, c2[n - 1] as real, w);
      }
    }
  }

  lemma MulMonotone(x: real, y: real, w: real)
    requires x <= y && w > 0.0
    ensures x * w <= y * w
  {
  }

  /** The result never goes down when no counted score goes down. */
  lemma OverallScoreMonotone(level: string, c1: map<string, Entry>, b1: map<string, Entry>,
                             c2: map<string, Entry>, b2: map<string, Entry>)
    requires forall i :: 0 <= i < |CriterionOrder| ==> CountedScore(c1 + b1, CriterionOrder[i]) <= CountedScore(c2 + b2, CriterionOrder[i])
    ensures OverallScore(level, c1, b1) <= OverallScore(level, c2, b2)
  {
    var ws := LevelWeights(NormalizeLevel(level));
    WeightTablesWellFormed(NormalizeLevel(level));
    var total := TotalWeight(ws, |ws|);
    WeightedSumMonotone(ws, Counts(c1 + b1), Counts(c2 + b2), |ws|);
    RoundHalfEvenMonotone(WeightedSum(ws, Counts(c1 + b1), |ws|) / total, WeightedSum(ws, Counts(c2 + b2), |ws|) / total);
  }

  /** Raising the score one core entry carries never lowers the result. */
  lemma RaisingOneScore(level: string, coreScores: map<string, Entry>, bonusScores: map<string, Entry>,
                        key: string, lo: int, hi: int)
    requires key !in bonusScores && lo <= hi
    ensures OverallScore(level, coreScores[key := Record(IntValue(lo))], bonusScores)
         <= OverallScore(level, coreScores[key := Record(IntValue(hi))], bonusScores)
  {
    OverallScoreMonotone(level, coreScores[key := Record(IntValue(lo))], bonusScores, coreScores[key := Record(IntValue(hi))], bonusScores);
  }

  // ---------------------------------------------------------------------------
  // Worked results

  /** With non-negative weights the weighted sum is the plain dot product. */
  lemma WeightedSumExpanded(ws: seq<real>, cs: seq<int>)
    requires |ws| == 12 && |cs| == 12 && forall i :: 0 <= i < 12 ==> ws[i] >= 0.0
    ensures WeightedSum(ws, cs, 12)
         == cs[0] as real * ws[0] + cs[1] as real * ws[1] + cs[2] as real * ws[2] + cs[3] as real * ws[3]
          + cs[4] as real * ws[4] + cs[5] as real * ws[5] + cs[6] as real * ws[6] + cs[7] as real * ws[7]
          + cs[8] as real * ws[8] + cs[9] as real * ws[9] + cs[10] as real * ws[10] + cs[11] as real * ws[11]
  {
    WeightedSumFirstSix(ws, cs);
    WeightedSumLastSix(ws, cs);
  }

  lemma WeightedSumFirstSix(ws: seq<real>, cs: seq<int>)
    requires |ws| == 12 && |cs| == 12 && forall i :: 0 <= i < 12 ==> ws[i] >= 0.0
    ensures WeightedSum(ws, cs, 6)
         == cs[0] as real * ws[0] + cs[1] as real * ws[1] + cs[2] as real * ws[2] + cs[3] as real * ws[3]
          + cs[4] as real * ws[4] + cs[5] as real * ws[5]
  {
    WeightedSumStep(ws, cs, 1);
    WeightedSumStep(ws, cs, 2);
    WeightedSumStep(ws, cs, 3);
    WeightedSumStep(ws, cs, 4);
    WeightedSumStep(ws, cs, 5);
    WeightedSumStep(ws, cs, 6);
  }

  lemma WeightedSumLastSix(ws: seq<real>, cs: seq<int>)
    requires |ws| == 12 && |cs| == 12 && forall i :: 0 <= i < 12 ==> ws[i] >= 0.0
    ensures WeightedSum(ws, cs, 12)
         == WeightedSum(ws, cs, 6) + cs[6] as real * ws[6] + cs[7] as real * ws[7]
          + cs[8] as real * ws[8] + cs[9] as real * ws[9] + cs[10] as real * ws[10] + cs[11] as real * ws[11]
  {
    WeightedSumStep(ws, cs, 7);
    WeightedSumStep(ws, cs, 8);
    WeightedSumStep(ws, cs, 9);
    WeightedSumStep(ws, cs, 10);
    WeightedSumStep(ws, cs, 11);
    WeightedSumStep(ws, cs, 12);
  }

  /** A key of weight zero adds nothing, so every key adds its score times its weight. */
  lemma WeightedSumStep(ws: seq<real>, cs: seq<int>, n: nat)
    requires 0 < n <= |ws| && n <= |cs| && ws[n - 1] >= 0.0
    ensures WeightedSum(ws, cs, n) == WeightedSum(ws, cs, n - 1) + cs[n - 1] as real * ws[n - 1]
  {
    if ws[n - 1] == 0.0 {
      assert cs[n - 1] as real * ws[n - 1] == 0.0;
    }
  }

  /** The first six keys of `CriterionOrder` are the core keys, the last six the bonus keys. */
  lemma CriterionKinds()
    ensures forall i :: 0 <= i < 6 ==> CriterionOrder[i] in CoreKeys && CriterionOrder[i] !in BonusKeys
    ensures forall i :: 6 <= i < 12 ==> CriterionOrder[i] in BonusKeys
  {
  }

  /** With nothing evaluated, every core criterion counts 0 and every bonus
      criterion 35, so the result is 35 times the bonus share of the weights:
      5 for an intern, 7 for a fresher, 4 for a junior, 2 for a mid and 0 for
      a senior. */
  lemma NothingEvaluated(level: string)
    ensures OverallScore(level, map[], map[])
         == match NormalizeLevel(level)
            case Intern => 5 case Fresher => 7 case Junior => 4 case Mid => 2 case Senior => 0
  {
    CountsByKind(map[], 0);
    ScoreByKind(NormalizeLevel(level), Counts(map[]), 0);
  }

  /** All six core criteria at 80 and no bonus entry, for a junior: the core
      weights add up to 88 and the bonus weights to 12, so the mean is 74.6,
      which rounds to 75. */
  lemma JuniorCoreEighty()
    ensures OverallScore("junior", map k | k in CoreKeys :: Record(IntValue(80)), map[]) == 75
  {
    var core := map k | k in CoreKeys :: Record(IntValue(80));
    assert core + map[] == core;
    CountsByKind(core, 80);
    NormalizeName(Junior);
    ScoreByKind(Junior, Counts(core), 80);
  }

  /** Counts of a map that gives every core key the score `c` and has no
      usable bonus entry. */
  lemma CountsByKind(all: map<string, Entry>, c: int)
    requires 0 <= c <= 100
    requires forall k :: k in all ==> k in CoreKeys && all[k] == Record(IntValue(c))
    requires forall k :: k in CoreKeys ==> k in all || c == 0
    ensures forall i :: 0 <= i < 6 ==> Counts(all)[i] == c
    ensures forall i :: 6 <= i < 12 ==> Counts(all)[i] == NeutralBonusScore
  {
    CriterionKinds();
  }

  /** The score of core criteria all at `c` with neutral bonus criteria. */
  lemma ScoreByKind(l: Level, cs: seq<int>, c: int)
    requires |cs| == 12 && (c == 0 || c == 80)
    requires forall i :: 0 <= i < 6 ==> cs[i] == c
    requires forall i :: 6 <= i < 12 ==> cs[i] == NeutralBonusScore
    ensures c == 0 ==>
              ScoreWith(LevelWeights(l), cs)
              == (match l case Intern => 5 case Fresher => 7 case Junior => 4 case Mid => 2 case Senior => 0)
    ensures (c == 80 && l == Junior) ==> ScoreWith(LevelWeights(l), cs) == 75
  {
    WeightTablesWellFormed(l);
    WeightedSumExpanded(LevelWeights(l), cs);
  }
}
