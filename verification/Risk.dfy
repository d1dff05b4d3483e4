/**
 The deterministic risk calculus in exact arithmetic: file composition, changeset
 aggregation under the frozen rule version 3.0 and the active version 3.1, band
 lookup and the user-facing score. A finding is represented by the set of text
 markers it contains.
 */
module Risk {
  import opened Reals

  datatype Weights = Weights(style: real, structural: real, semantic: real)

  datatype Signals = Signals(style: real, structural: real, semantic: real, duplication: real, security: real)

  const FILE_WEIGHTS := Weights(0.28, 0.39, 0.33)

  datatype Marker =
    | Critical | CriticalSecurity | High
    | ModelCritical | ModelHigh | ModelMedium | ModelLow

  datatype Level = LowRisk | MediumRisk | HighRisk | CriticalRisk

  datatype Gate = NoGate | HighGate | CriticalGate

  /** What is reported for a changeset: the final and the deterministic risk, score, band and gate. */
  datatype Review = Review(risk: real, rDet: real, overallScore: int, level: Level, gate: Gate)

  function Max(a: real, b: real): real {
    if a < b then b else a
  }

  function Min(a: real, b: real): real {
    if b < a then b else a
  }

  function Clamp(v: real): real {
    Max(0.0, Min(1.0, v))
  }

  // ------------------------------------------------------------------- rounding

  /** Python's `round` to an integer: ties go to the even neighbour. */
  function RoundHalfEven(v: real): int {
    var below := v.Floor;
    var rest := v - below as real;
    if rest < 0.5 || (rest == 0.5 && below % 2 == 0) then below else below + 1
  }

  function QuantizeRisk(v: real): real {
    RoundHalfEven(v * 10000.0) as real / 10000.0
  }

  function OverallScore(risk: real): int {
    RoundHalfEven((1.0 - Clamp(risk)) * 100.0)
  }

  /** Rounding is monotone, moves a value by at most one half, leaves integers alone and settles ties at an even number. */
  lemma RoundingKeepsOrder(v: real, w: real)
    requires v <= w
    ensures RoundHalfEven(v) <= RoundHalfEven(w)
    ensures -0.5 <= RoundHalfEven(v) as real - v <= 0.5
    ensures v == v.Floor as real ==> RoundHalfEven(v) as real == v
    ensures v - v.Floor as real == 0.5 ==> RoundHalfEven(v) % 2 == 0
  {
    assert v.Floor <= w.Floor;
  }

  lemma QuantizingKeepsOrder(v: real, w: real)
    requires v <= w
    ensures QuantizeRisk(v) <= QuantizeRisk(w)
  {
    RoundingKeepsOrder(v * 10000.0, w * 10000.0);
  }

  /** The result has four decimals and is as close to the value as four decimals can be. */
  lemma QuantizingIsClose(v: real) returns (n: int)
    ensures QuantizeRisk(v) == n as real / 10000.0
    ensures -0.00005 <= QuantizeRisk(v) - v <= 0.00005
  {
    n := RoundHalfEven(v * 10000.0);
    RoundingKeepsOrder(v * 10000.0, v * 10000.0);
  }

  /** The bounds of the scale and the gate floors are multiples of the quantum. */
  lemma FloorsAreQuantized(floor: real)
    requires floor in [0.0, 0.5, 0.75, 1.0]
    ensures QuantizeRisk(floor) == floor
  {
    assert 0.0 * 10000.0 == 0 as real && 0.5 * 10000.0 == 5000 as real;
    assert 0.75 * 10000.0 == 7500 as real && 1.0 * 10000.0 == 10000 as real;
  }

  // ------------------------------------------------------------------- file risk

  function DuplicationBonus(duplication: real): real {
    if duplication > 0.05 then 0.05 * Min(duplication / 0.30, 1.0) else 0.0
  }

  function SecurityGateFloor(security: real): real {
    if security >= 0.60 then 0.75 else if security >= 0.30 then 0.50 else 0.0
  }

  function Linear(weights: Weights, s: Signals): real {
    Times(weights.style, s.style) + Times(weights.structural, s.structural) + Times(weights.semantic, s.semantic)
  }

  function ComposeFileRisk(weights: Weights, s: Signals): real {
    var risk := Clamp(Linear(weights, s) + DuplicationBonus(s.duplication) + s.security * 0.50);
    QuantizeRisk(Max(risk, SecurityGateFloor(s.security)))
  }

  /** The frozen 3.0 file rule. */
  function ComposeFileRiskLegacy(s: Signals): real {
    var base := 0.28 * s.style + 0.39 * s.structural + 0.33 * s.semantic;
    var boost := if s.duplication > 0.05 then 0.05 * Min(s.duplication / 0.30, 1.0) else 0.0;
    var risk := Clamp(base + boost + s.security * 0.50);
    QuantizeRisk(
      if s.security >= 0.60 then Max(risk, 0.75)
      else if s.security >= 0.30 then Max(risk, 0.50)
      else risk)
  }

  predicate AtMost(s: Signals, t: Signals) {
    && s.style <= t.style && s.structural <= t.structural && s.semantic <= t.semantic
    && s.duplication <= t.duplication && s.security <= t.security
  }

  predicate NonNegative(weights: Weights) {
    weights.style >= 0.0 && weights.structural >= 0.0 && weights.semantic >= 0.0
  }

  lemma DuplicationBonusKeepsOrder(d: real, e: real)
    requires d <= e
    ensures 0.0 <= DuplicationBonus(d) <= DuplicationBonus(e) <= 0.05
  {
    assert d / 0.30 <= e / 0.30;
  }

  /** Raising any of the five signals never lowers the risk of a file. */
  lemma FileRiskIsMonotone(weights: Weights, s: Signals, t: Signals)
    requires NonNegative(weights) && AtMost(s, t)
    ensures ComposeFileRisk(weights, s) <= ComposeFileRisk(weights, t)
  {
    ScaleKeepsOrder(weights.style, s.style, t.style);
    ScaleKeepsOrder(weights.structural, s.structural, t.structural);
    ScaleKeepsOrder(weights.semantic, s.semantic, t.semantic);
    DuplicationBonusKeepsOrder(s.duplication, t.duplication);
    var low := Clamp(Linear(weights, s) + DuplicationBonus(s.duplication) + s.security * 0.50);
    var high := Clamp(Linear(weights, t) + DuplicationBonus(t.duplication) + t.security * 0.50);
    assert low <= high;
    QuantizingKeepsOrder(Max(low, SecurityGateFloor(s.security)), Max(high, SecurityGateFloor(t.security)));
  }

  /** A file's risk stays on the scale and rounding never takes a gated file below its floor. */
  lemma FileRiskRespectsGates(weights: Weights, s: Signals)
    ensures 0.0 <= ComposeFileRisk(weights, s) <= 1.0
    ensures SecurityGateFloor(s.security) <= ComposeFileRisk(weights, s)
  {
    var floor := SecurityGateFloor(s.security);
    var risk := Max(Clamp(Linear(weights, s) + DuplicationBonus(s.duplication) + s.security * 0.50), floor);
    FloorsAreQuantized(floor);
    FloorsAreQuantized(1.0);
    QuantizingKeepsOrder(floor, risk);
    QuantizingKeepsOrder(risk, 1.0);
  }

  /** Version 3.1 did not change the risk of a single file. */
  lemma FileRuleUnchanged(s: Signals)
    ensures ComposeFileRisk(FILE_WEIGHTS, s) == ComposeFileRiskLegacy(s)
  {
  }

  // ------------------------------------------------------------------- changesets

  function Peak(scores: seq<real>): real
    requires scores != []
  {
    if |scores| == 1 then scores[0] else Max(scores[0], Peak(scores[1..]))
  }

  /** Mean and peak combined; a single file speaks for itself. */
  function Blend(scores: seq<real>): real
    requires scores != []
  {
    if |scores| > 1 then 0.70 * (Sum(scores) / |scores| as real) + 0.30 * Peak(scores) else Peak(scores)
  }

  predicate Mentions(findings: seq<set<Marker>>, m: Marker) {
    exists i :: 0 <= i < |findings| && m in findings[i]
  }

  function PeakFloor(peak: real): real {
    if peak >= 0.75 then 0.75 else if peak >= 0.50 then 0.50 else 0.0
  }

  function EvidenceFloor(findings: seq<set<Marker>>): real {
    if Mentions(findings, Critical) || Mentions(findings, CriticalSecurity) then 0.75
    else if Mentions(findings, High) then 0.50
    else 0.0
  }

  function OverlayFloor(findings: seq<set<Marker>>): real {
    if Mentions(findings, ModelCritical) then 0.75
    else if Mentions(findings, ModelHigh) then 0.50
    else if Mentions(findings, ModelMedium) then 0.25
    else if Mentions(findings, ModelLow) then 0.10
    else 0.0
  }

  function LevelOf(risk: real): Level {
    if risk >= 0.75 then CriticalRisk else if risk >= 0.50 then HighRisk else if risk >= 0.25 then MediumRisk else LowRisk
  }

  function Severity(level: Level): nat {
    match level
    case LowRisk => 0
    case MediumRisk => 1
    case HighRisk => 2
    case CriticalRisk => 3
  }

  const NOTHING_ANALYZED := Review(0.0, 0.0, 100, LowRisk, NoGate)

  /** The 3.1 rule: the largest of the blend and every floor that applies. */
  function ActiveRisk(scores: seq<real>, findings: seq<set<Marker>>): real
    requires scores != []
  {
    Clamp(Max(Max(Blend(scores), Max(PeakFloor(Peak(scores)), EvidenceFloor(findings))), OverlayFloor(findings)))
  }

  method ComposeChangesetActive(scores: seq<real>, findings: seq<set<Marker>>) returns (review: Review)
    ensures scores == [] ==> review == Review(0.0, 0.0, 100, LowRisk, NoGate)
    ensures scores != [] ==>
      && review.risk == ActiveRisk(scores, findings)
      && review.rDet == Max(Blend(scores), Max(PeakFloor(Peak(scores)), EvidenceFloor(findings)))
      && review.level == LevelOf(review.risk) && review.overallScore == OverallScore(review.risk)
      && (review.gate == CriticalGate <==>
            Peak(scores) >= 0.75 || Mentions(findings, Critical) || Mentions(findings, CriticalSecurity))
      && (review.gate == NoGate <==> PeakFloor(Peak(scores)) == EvidenceFloor(findings) == 0.0)
  {
    if scores == [] { return NOTHING_ANALYZED; }
    var rDet := Blend(scores);
    var floor := Max(PeakFloor(Peak(scores)), EvidenceFloor(findings));
    if floor > rDet { rDet := floor; }
    var gate := if floor >= 0.75 then CriticalGate else if floor >= 0.50 then HighGate else NoGate;
    var risk := Clamp(Max(rDet, OverlayFloor(findings)));
    review := Review(risk, rDet, OverallScore(risk), LevelOf(risk), gate);
  }

  /** The frozen 3.0 rule, with its later peak triggers. */
  method ComposeChangesetLegacy(scores: seq<real>, findings: seq<set<Marker>>) returns (review: Review)
    ensures scores == [] ==> review == Review(0.0, 0.0, 100, LowRisk, NoGate)
    ensures scores != [] ==>
      && review.risk == LegacyRisk(scores, findings)
      && review.level == LevelOf(review.risk) && review.overallScore == OverallScore(review.risk)
      && (review.gate == CriticalGate <==>
            Peak(scores) >= 0.80 || Mentions(findings, Critical) || Mentions(findings, CriticalSecurity))
      && (review.gate == NoGate <==> Peak(scores) < 0.60 && EvidenceFloor(findings) == 0.0)
      && review.rDet == if review.gate == NoGate then Blend(scores)
                        else Max(Blend(scores), Max(LegacyPeakFloor(Peak(scores)), EvidenceFloor(findings)))
  {
    if scores == [] { return NOTHING_ANALYZED; }
    var rDet := Blend(scores);
    var critical := Peak(scores) >= 0.80 || Mentions(findings, Critical) || Mentions(findings, CriticalSecurity);
    var high := Peak(scores) >= 0.60 || Mentions(findings, High);
    var gate := NoGate;
    if critical {
      rDet := Max(rDet, 0.75);
      gate := CriticalGate;
    } else if high {
      rDet := Max(rDet, 0.50);
      gate := HighGate;
    }
    var risk := rDet;
    if Mentions(findings, ModelCritical) {
      risk := Max(risk, 0.75);
    } else if Mentions(findings, ModelHigh) {
      risk := Max(risk, 0.50);
    } else if Mentions(findings, ModelMedium) {
      risk := Max(risk, 0.25);
    } else if Mentions(findings, ModelLow) {
      risk := Max(risk, 0.10);
    }
    risk := Clamp(risk);
    review := Review(risk, rDet, RoundHalfEven((1.0 - risk) * 100.0), LevelOf(risk), gate);
  }

  function LegacyPeakFloor(peak: real): real {
    if peak >= 0.80 then 0.75 else if peak >= 0.60 then 0.50 else 0.0
  }

  function LegacyRisk(scores: seq<real>, findings: seq<set<Marker>>): real
    requires scores != []
  {
    Clamp(Max(Max(Blend(scores), Max(LegacyPeakFloor(Peak(scores)), EvidenceFloor(findings))), OverlayFloor(findings)))
  }

  /**
   Version 3.1 is version 3.0 raised to the band floor of its riskiest file. So it
   never reports less, and reports more exactly when 3.0 fell below that floor,
   which takes a peak in [0.50, 0.60) or [0.75, 0.80).
   */
  lemma ActiveDominatesLegacy(scores: seq<real>, findings: seq<set<Marker>>)
    requires scores != []
    ensures ActiveRisk(scores, findings) == Max(LegacyRisk(scores, findings), PeakFloor(Peak(scores)))
    ensures ActiveRisk(scores, findings) != LegacyRisk(scores, findings) ==>
      0.50 <= Peak(scores) < 0.60 || 0.75 <= Peak(scores) < 0.80
  {
  }

  // ------------------------------------------------------------------- what the blend keeps

  lemma {:induction false} PeakIsLargest(scores: seq<real>)
    requires scores != []
    ensures Peak(scores) in scores && forall s | s in scores :: s <= Peak(scores)
  {
    if |scores| > 1 {
      PeakIsLargest(scores[1..]);
      assert scores == [scores[0]] + scores[1..];
    }
  }

  /** No dilution: clean files never take a changeset below a critical or high band that one file reaches. */
  lemma NeverDiluted(scores: seq<real>, findings: seq<set<Marker>>, i: nat)
    requires i < |scores| && LevelOf(scores[i]) in [HighRisk, CriticalRisk]
    ensures Severity(LevelOf(scores[i])) <= Severity(LevelOf(ActiveRisk(scores, findings)))
  {
    PeakIsLargest(scores);
    assert scores[i] in scores;
  }

  /** The band that a finding with this marker stands for; marks from the model count like the analyzers' own. */
  function BandOf(m: Marker): Level {
    match m
    case Critical => CriticalRisk
    case CriticalSecurity => CriticalRisk
    case ModelCritical => CriticalRisk
    case High => HighRisk
    case ModelHigh => HighRisk
    case ModelMedium => MediumRisk
    case ModelLow => LowRisk
  }

  /** No finding is outvoted: a changeset is never below the band of any marker on any of its findings. */
  lemma FindingsAreHeeded(scores: seq<real>, findings: seq<set<Marker>>, i: nat, m: Marker)
    requires scores != [] && i < |findings| && m in findings[i]
    ensures Severity(BandOf(m)) <= Severity(LevelOf(ActiveRisk(scores, findings)))
    ensures m == ModelLow ==> ActiveRisk(scores, findings) >= 0.10
  {
    assert Mentions(findings, m);
  }

  /** Without any marker only the files count. */
  lemma OnlyMarkersLift(scores: seq<real>, findings: seq<set<Marker>>)
    requires scores != [] && forall i | 0 <= i < |findings| :: findings[i] == {}
    ensures ActiveRisk(scores, findings) == Clamp(Max(Blend(scores), PeakFloor(Peak(scores))))
  {
  }

  /**
   The medium band has no such gate: a changeset whose riskiest file is medium is
   reported low exactly when the blend is low and no finding lifts it.
   */
  lemma MediumIsDilutedIff(scores: seq<real>, findings: seq<set<Marker>>)
    requires scores != [] && LevelOf(Peak(scores)) == MediumRisk
    ensures LevelOf(ActiveRisk(scores, findings)) == LowRisk
      <==> Blend(scores) < 0.25 && EvidenceFloor(findings) == 0.0 && OverlayFloor(findings) < 0.25
  {
  }

  /** One medium file beside a clean one is reported low. */
  lemma MediumIsDiluted()
    ensures LevelOf(0.25) == MediumRisk && LevelOf(ActiveRisk([0.25, 0.0], [])) == LowRisk
  {
    assert Sum([0.25, 0.0]) == 0.25;
    assert Peak([0.25, 0.0]) == 0.25;
  }

  // ------------------------------------------------------------------- monotone, order-free

  lemma {:induction false} RaiseOne(scores: seq<real>, i: nat, v: real)
    requires i < |scores| && scores[i] <= v
    ensures Sum(scores[i := v]) == Sum(scores) - scores[i] + v
    ensures Peak(scores) <= Peak(scores[i := v])
  {
    if i == 0 {
      assert scores[i := v][1..] == scores[1..];
    } else {
      assert scores[i := v][1..] == scores[1..][i - 1 := v];
      RaiseOne(scores[1..], i - 1, v);
    }
  }

  /** Raising one file's risk never lowers the changeset's. */
  lemma ChangesetIsMonotone(scores: seq<real>, findings: seq<set<Marker>>, i: nat, v: real)
    requires i < |scores| && scores[i] <= v
    ensures ActiveRisk(scores, findings) <= ActiveRisk(scores[i := v], findings)
  {
    RaiseOne(scores, i, v);
    DivideKeepsOrder(Sum(scores), Sum(scores[i := v]), |scores| as real);
  }

  /**
   What one file weighs: raising a file of several by `d`, short of the peak, raises
   the blend by seven tenths of `d` per file, and raising a file that becomes the
   new peak adds three tenths of what the peak gains.
   */
  lemma BlendGain(scores: seq<real>, i: nat, d: real)
    requires i < |scores| && |scores| > 1 && d >= 0.0
    ensures Blend(scores[i := scores[i] + d]) == Blend(scores) + 0.7 * (d / |scores| as real) +
      if scores[i] + d <= Peak(scores) then 0.0 else 0.3 * (scores[i] + d - Peak(scores))
  {
    var raised := scores[i := scores[i] + d];
    RaiseOne(scores, i, scores[i] + d);
    PeakAfterRaise(scores, i, scores[i] + d);
    DivisionAdds(Sum(scores), d, |scores| as real);
    assert Sum(raised) == Sum(scores) + d && |raised| == |scores|;
  }

  lemma DivisionAdds(v: real, w: real, n: real)
    requires n > 0.0
    ensures (v + w) / n == v / n + w / n
  {
  }

  lemma PeakAfterRaise(scores: seq<real>, i: nat, v: real)
    requires i < |scores| && scores[i] <= v
    ensures Peak(scores[i := v]) == Max(Peak(scores), v)
  {
    var raised := scores[i := v];
    PeakIsLargest(scores);
    PeakIsLargest(raised);
    assert raised[i] in raised;
    forall j | 0 <= j < |scores| && j != i ensures raised[j] in raised && scores[j] in scores { }
    var k :| 0 <= k < |scores| && scores[k] == Peak(scores);
    assert raised[k] in raised;
  }

  /** Files of equal risk: the blend is that risk. */
  lemma BlendOfEquals(scores: seq<real>, v: real)
    requires scores != [] && forall i | 0 <= i < |scores| :: scores[i] == v
    ensures Blend(scores) == v
  {
    SumOfEquals(scores, v);
    PeakIsLargest(scores);
    assert v * |scores| as real / |scores| as real == v;
  }

  lemma {:induction false} SumOfEquals(scores: seq<real>, v: real)
    requires forall i | 0 <= i < |scores| :: scores[i] == v
    ensures Sum(scores) == v * |scores| as real
  {
    if scores != [] {
      SumOfEquals(scores[1..], v);
      assert v * |scores| as real == v + v * (|scores| - 1) as real;
    }
  }

  function Without(b: seq<real>, i: nat): seq<real>
    requires i < |b|
  {
    b[..i] + b[i + 1..]
  }

  lemma {:induction false} SumWithout(b: seq<real>, i: nat)
    requires i < |b|
    ensures Sum(b) == b[i] + Sum(Without(b, i))
  {
    if i == 0 {
      assert Without(b, i) == b[1..];
    } else {
      SumWithout(b[1..], i - 1);
      assert Without(b, i) == [b[0]] + Without(b[1..], i - 1);
    }
  }

  lemma MultisetWithout(b: seq<real>, i: nat)
    requires i < |b|
    ensures multiset(Without(b, i)) == multiset(b) - multiset{b[i]}
  {
    assert b == b[..i] + ([b[i]] + b[i + 1..]);
  }

  lemma {:induction false} SumIsOrderFree(a: seq<real>, b: seq<real>)
    requires multiset(a) == multiset(b)
    ensures Sum(a) == Sum(b)
  {
    if a == [] {
      assert |b| == |multiset(b)|;
    } else {
      assert a[0] in multiset(b);
      var i :| 0 <= i < |b| && b[i] == a[0];
      MultisetWithout(b, i);
      MultisetWithout(a, 0);
      SumIsOrderFree(Without(a, 0), Without(b, i));
      SumWithout(a, 0);
      SumWithout(b, i);
    }
  }

  lemma PeakIsOrderFree(scores: seq<real>, others: seq<real>)
    requires scores != [] && multiset(scores) == multiset(others)
    ensures |others| == |scores| && Peak(scores) == Peak(others)
  {
    assert |multiset(scores)| == |scores| && |multiset(others)| == |others|;
    PeakIsLargest(scores);
    PeakIsLargest(others);
    assert Peak(scores) in multiset(others) && Peak(others) in multiset(scores);
    assert Peak(scores) in others && Peak(others) in scores;
  }

  /** The order of the files, and which file carries which finding, leaves no trace. */
  lemma ChangesetIsOrderFree(scores: seq<real>, others: seq<real>, findings: seq<set<Marker>>, rest: seq<set<Marker>>)
    requires scores != [] && multiset(scores) == multiset(others)
    requires forall m :: Mentions(findings, m) <==> Mentions(rest, m)
    ensures others != [] && ActiveRisk(scores, findings) == ActiveRisk(others, rest)
  {
    PeakIsOrderFree(scores, others);
    SumIsOrderFree(scores, others);
    assert EvidenceFloor(findings) == EvidenceFloor(rest) && OverlayFloor(findings) == OverlayFloor(rest);
  }

  /** A riskier changeset never gets a better score or a lower band. */
  lemma ReportFollowsRisk(low: real, high: real)
    requires low <= high
    ensures OverallScore(low) >= OverallScore(high)
    ensures Severity(LevelOf(low)) <= Severity(LevelOf(high))
    ensures 0 <= OverallScore(low) <= 100
    ensures 0.0 <= low <= 1.0 ==> -0.5 <= OverallScore(low) as real - (1.0 - low) * 100.0 <= 0.5
  {
    RoundingKeepsOrder((1.0 - Clamp(high)) * 100.0, (1.0 - Clamp(low)) * 100.0);
    RoundingKeepsOrder(0.0, (1.0 - Clamp(low)) * 100.0);
    RoundingKeepsOrder((1.0 - Clamp(low)) * 100.0, 100.0);
  }
}
