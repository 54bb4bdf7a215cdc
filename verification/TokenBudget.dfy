/**
 Token budgets of the summarization pipeline. The laws connect the window that
 is derived from the context size with the output budget a segment of that size
 is given: when do prompt, input, output and margin fit the context together?
 */
module TokenBudget {

  datatype Config = Config(nCtx: int, safetyMargin: int, segmentRatio: real, segmentMinRatio: real,
                           segmentMaxRatio: real, segmentMinFloor: int, segmentMaxCap: int)

  datatype Budget = Budget(target: int, minOut: int, maxOut: int)

  const SEGMENT_WINDOW_FLOOR := 2000

  // ---------- rounding ----------

  function Ceil(x: real): int { -((-x).Floor) }

  /** Conversion to an integer drops the fraction. */
  function Truncate(x: real): int { if x < 0.0 then Ceil(x) else x.Floor }

  function MinR(a: real, b: real): real { if b < a then b else a }

  function MaxR(a: real, b: real): real { if b > a then b else a }

  function Min(a: int, b: int): int { if b < a then b else a }

  function Max(a: int, b: int): int { if b > a then b else a }

  function Clamp(value: real, low: real, high: real): int {
    Truncate(MaxR(low, MinR(value, high)))
  }

  // ---------- the budgets ----------

  /** The given share of a number of tokens, before rounding. */
  function Share(tokens: int, ratio: real): real {
    tokens as real * ratio
  }

  function ComputeSegmentBudget(input: int, cfg: Config): Budget {
    var minOut := Max(Ceil(Share(input, cfg.segmentMinRatio)), cfg.segmentMinFloor);
    var maxOut := Min((Share(input, cfg.segmentMaxRatio)).Floor, cfg.segmentMaxCap);
    Budget(Clamp(Share(input, cfg.segmentRatio), minOut as real, maxOut as real), minOut, maxOut)
  }

  function UncapSegmentForInput(cfg: Config, input: int): Config {
    var needed := Ceil(Share(input, cfg.segmentMaxRatio));
    if needed <= cfg.segmentMaxCap then cfg else cfg.(segmentMaxCap := needed)
  }

  predicate FitsWholeTranscript(cfg: Config, prompt: int, transcript: int) {
    prompt + 2 * transcript + cfg.safetyMargin <= cfg.nCtx
  }

  predicate WholeTranscriptPossible(cfg: Config, prompt: int, transcript: int) {
    prompt + transcript + Ceil(Share(transcript, cfg.segmentMinRatio)) + cfg.safetyMargin <= cfg.nCtx
  }

  /** Half of the free context; division by two rounds down, also below zero. */
  function Available(cfg: Config, prompt: int): int {
    (cfg.nCtx - prompt - cfg.safetyMargin) / 2
  }

  function DeriveWindowTokens(cfg: Config, prompt: int, cap: int, floor: int): int {
    Clamp(Available(cfg, prompt) as real, floor as real, Max(floor, cap) as real)
  }

  // ---------- what rounding and clamping do ----------

  lemma CeilBounds(x: real)
    ensures x <= Ceil(x) as real < x + 1.0
  {
  }

  /** Between integer bounds the result stays between them; crossed bounds give the lower one; integers are kept exactly. */
  lemma ClampIsMedian(value: real, low: int, high: int)
    ensures low <= high ==> low <= Clamp(value, low as real, high as real) <= high
    ensures low > high ==> Clamp(value, low as real, high as real) == low
    ensures low as real <= value <= high as real ==> Clamp(value, low as real, high as real) == Truncate(value)
    ensures value <= low as real ==> Clamp(value, low as real, high as real) == low
    ensures low <= high && value >= high as real ==> Clamp(value, low as real, high as real) == high
  {
  }

  lemma TimesAtMostOne(n: int, ratio: real)
    requires n >= 0 && ratio <= 1.0
    ensures Share(n, ratio) <= n as real
  {
  }

  lemma CeilOfShare(n: int, ratio: real)
    requires n >= 0 && ratio <= 1.0
    ensures Ceil(Share(n, ratio)) <= n && (Share(n, ratio)).Floor <= n
  {
    TimesAtMostOne(n, ratio);
    hide Ceil, Share;
    CeilBounds(Share(n, ratio));
  }

  // ---------- the budget of a segment ----------

  /** The raised cap no longer binds, nothing else changes, and raising again changes nothing. */
  lemma UncapLiftsTheCap(cfg: Config, input: int)
    ensures var u := UncapSegmentForInput(cfg, input);
            && u.segmentMaxCap >= cfg.segmentMaxCap && u.(segmentMaxCap := cfg.segmentMaxCap) == cfg
            && ComputeSegmentBudget(input, u).maxOut == (Share(input, cfg.segmentMaxRatio)).Floor
            && UncapSegmentForInput(u, input) == u
  {
    hide Clamp, Share;
    CeilBounds(Share(input, cfg.segmentMaxRatio));
  }

  /**
   The bounds are tight: the least whole number at or above both the share and
   the floor, the greatest at or below both the share and the cap.
   */
  lemma BoundsAreTight(input: int, cfg: Config)
    ensures var b, least, most := ComputeSegmentBudget(input, cfg),
                                  input as real * cfg.segmentMinRatio, input as real * cfg.segmentMaxRatio;
            && b.minOut >= cfg.segmentMinFloor && b.minOut as real >= least
            && (b.minOut == cfg.segmentMinFloor || (b.minOut - 1) as real < least)
            && b.maxOut <= cfg.segmentMaxCap && b.maxOut as real <= most
            && (b.maxOut == cfg.segmentMaxCap || (b.maxOut + 1) as real > most)
  {
    hide Clamp;
    CeilBounds(Share(input, cfg.segmentMinRatio));
  }

  /** The target lies between the bounds; when they cross, the lower bound wins. */
  lemma TargetRespectsBounds(input: int, cfg: Config)
    ensures var b := ComputeSegmentBudget(input, cfg);
            && b.minOut <= b.target
            && (b.minOut <= b.maxOut ==> b.target <= b.maxOut)
            && (b.minOut > b.maxOut ==> b.target == b.minOut)
            && b.minOut >= cfg.segmentMinFloor && b.maxOut <= cfg.segmentMaxCap
            && (b.minOut as real <= Share(input, cfg.segmentRatio) <= b.maxOut as real ==>
                  b.target == Truncate(Share(input, cfg.segmentRatio)))
  {
    var b := ComputeSegmentBudget(input, cfg);
    hide Clamp, Ceil, Share;
    ClampIsMedian(Share(input, cfg.segmentRatio), b.minOut, b.maxOut);
  }

  /** With ratios of at most one the target exceeds the input only up to the absolute floor, which it then equals. */
  lemma TargetAgainstInput(input: int, cfg: Config)
    requires input >= 0 && cfg.segmentMinRatio <= 1.0 && cfg.segmentMaxRatio <= 1.0
    ensures var target := ComputeSegmentBudget(input, cfg).target;
            if cfg.segmentMinFloor <= input then target <= input else target == cfg.segmentMinFloor
  {
    hide Clamp, Ceil, Share;
    CeilOfShare(input, cfg.segmentMinRatio);
    CeilOfShare(input, cfg.segmentMaxRatio);
    TargetRespectsBounds(input, cfg);
  }

  // ---------- the derived window ----------

  /** The window is what is available, held between the floor and the cap. */
  lemma WindowIsAvailable(cfg: Config, prompt: int, cap: int, floor: int)
    ensures var w := DeriveWindowTokens(cfg, prompt, cap, floor);
            && floor <= w <= Max(floor, cap)
            && (floor <= Available(cfg, prompt) ==> w == Min(Available(cfg, prompt), Max(floor, cap)))
            && (floor > Available(cfg, prompt) ==> w == floor)
  {
    hide Clamp;
    ClampIsMedian(Available(cfg, prompt) as real, floor, Max(floor, cap));
    var a := Available(cfg, prompt);
    assert Truncate(a as real) == a;
  }

  /** The full window passes the whole-transcript check exactly when it did not need its floor. */
  lemma WindowFitsIffFloorUnneeded(cfg: Config, prompt: int, cap: int, floor: int)
    ensures FitsWholeTranscript(cfg, prompt, DeriveWindowTokens(cfg, prompt, cap, floor)) <==> floor <= Available(cfg, prompt)
  {
    hide DeriveWindowTokens;
    WindowIsAvailable(cfg, prompt, cap, floor);
  }

  /** The conservative check implies the hard one. */
  lemma FittingIsPossible(cfg: Config, prompt: int, transcript: int)
    requires transcript >= 0 && cfg.segmentMinRatio <= 1.0 && FitsWholeTranscript(cfg, prompt, transcript)
    ensures WholeTranscriptPossible(cfg, prompt, transcript)
  {
    hide Ceil, Share;
    CeilOfShare(transcript, cfg.segmentMinRatio);
  }

  /**
   Any input up to a window that did not need its floor gets, with the cap
   lifted, a budget that fits the context beside prompt, input and margin, if
   and only if the absolute floor of a segment is at most the input or fits the
   context beside it.
   */
  lemma SegmentFitsIff(cfg: Config, prompt: int, cap: int, floor: int, input: int)
    requires cfg.segmentMinRatio <= 1.0 && cfg.segmentMaxRatio <= 1.0
    requires floor <= Available(cfg, prompt) && 0 <= input <= DeriveWindowTokens(cfg, prompt, cap, floor)
    ensures var target := ComputeSegmentBudget(input, UncapSegmentForInput(cfg, input)).target;
            prompt + input + target + cfg.safetyMargin <= cfg.nCtx
            <==> cfg.segmentMinFloor <= input || prompt + input + cfg.segmentMinFloor + cfg.safetyMargin <= cfg.nCtx
  {
    hide DeriveWindowTokens, ComputeSegmentBudget, Ceil;
    WindowIsAvailable(cfg, prompt, cap, floor);
    TargetAgainstInput(input, UncapSegmentForInput(cfg, input));
  }

  /** The whole chain, for an input no smaller than the segment floor. */
  lemma DerivedWindowIsSafe(cfg: Config, prompt: int, cap: int, input: int)
    requires cfg.segmentMinRatio <= 1.0 && cfg.segmentMaxRatio <= 1.0
    requires SEGMENT_WINDOW_FLOOR <= Available(cfg, prompt)
    requires cfg.segmentMinFloor <= input && 0 <= input <= DeriveWindowTokens(cfg, prompt, cap, SEGMENT_WINDOW_FLOOR)
    ensures var window := DeriveWindowTokens(cfg, prompt, cap, SEGMENT_WINDOW_FLOOR);
            var budget := ComputeSegmentBudget(input, UncapSegmentForInput(cfg, input));
            && prompt + input + budget.target + cfg.safetyMargin <= cfg.nCtx
            && budget.maxOut == (Share(input, cfg.segmentMaxRatio)).Floor
            && FitsWholeTranscript(cfg, prompt, window) && WholeTranscriptPossible(cfg, prompt, window)
  {
    hide DeriveWindowTokens, ComputeSegmentBudget, Ceil, FitsWholeTranscript, WholeTranscriptPossible, UncapSegmentForInput;
    UncapLiftsTheCap(cfg, input);
    SegmentFitsIff(cfg, prompt, cap, SEGMENT_WINDOW_FLOOR, input);
    WindowFitsIffFloorUnneeded(cfg, prompt, cap, SEGMENT_WINDOW_FLOOR);
    FittingIsPossible(cfg, prompt, DeriveWindowTokens(cfg, prompt, cap, SEGMENT_WINDOW_FLOOR));
  }

  /** A window just above the window floor can still overflow when a segment's absolute floor exceeds its input. */
  lemma SmallInputOverflows()
    ensures var cfg := Config(4800, 0, 0.78, 0.65, 0.90, 4500, 1800);
            && SEGMENT_WINDOW_FLOOR <= Available(cfg, 700)
            && 500 <= DeriveWindowTokens(cfg, 700, 12000, SEGMENT_WINDOW_FLOOR)
            && 700 + 500 + ComputeSegmentBudget(500, UncapSegmentForInput(cfg, 500)).target + 0 > cfg.nCtx
  {
    var cfg := Config(4800, 0, 0.78, 0.65, 0.90, 4500, 1800);
    WindowIsAvailable(cfg, 700, 12000, SEGMENT_WINDOW_FLOOR);
    SegmentFitsIff(cfg, 700, 12000, SEGMENT_WINDOW_FLOOR, 500);
  }
}
