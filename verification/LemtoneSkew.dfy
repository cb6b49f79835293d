/**
 A target that the closed form accepts and misses: an input on the failing side of
 LemtoneExactness.ExactIffShareInUnit. It is one only the model type allows, a white whose X + Y + Z
 is negative: no colour table of the repository holds such a white. It breaks the cap on the whites too.
*/
module LemtoneSkew {
  import opened Options
  import opened LemtoneLinear
  import opened LemtoneClosedForm
  import opened LemtoneExactness
  import opened LemtoneWhites

  /** Unit r, g, b and two whites, the warm one with a negative total. */
  const SKEWED := Prims(Vec(1.0, 0.0, 0.0), Vec(0.0, 1.0, 0.0), Vec(0.0, 0.0, 1.0),
                        Vec(-0.5, -0.5, 0.0), Vec(0.5, 0.0, 0.5))

  const GREY := Vec(0.5, 0.5, 0.5)

  const ANCHOR := Point(0.125, 0.0)

  lemma SkewedRegular()
    ensures !Singular(SKEWED)
  {
    assert Det(SKEWED) == 1.0;
  }

  lemma SkewedInverse(v: Vec)
    ensures !Singular(SKEWED) && Mul(InvRgb(SKEWED), v) == v
  {
    SkewedRegular();
    assert RgbLight(v, SKEWED) == v;
    hide *;
    RecoversRgb(SKEWED, v);
  }

  lemma SkewedShare()
    ensures WhiteShare(SKEWED, ANCHOR) == 1.5 && WhiteMix(SKEWED, 1.5) == Vec(-1.0, -0.75, -0.25)
    ensures NoTiny(Vec(-1.0, -0.75, -0.25))
  {
    assert XyOf(SKEWED.cw) == Point(0.5, 0.0) && XyOf(SKEWED.ww) == Point(0.0, 0.0);
    assert BetaOn(Point(0.5, 0.0), Point(0.0, 0.0), ANCHOR) == 0.75;
  }

  lemma SkewedLevels(lim: Limits)
    requires lim == Limits(1.0, 0.0) || lim == Limits(1.0, 0.5)
    ensures Levels(lim, 1.5, GREY, Vec(-1.0, -0.75, -0.25)) == Some(Range(0.0, 0.5))
  {
    var b := Vec(-1.0, -0.75, -0.25);
    assert WhiteCap(lim, 1.5) == if lim.whiteSumMax > 0.0 then 0.5 else 1.0 / 1.5;
    var r := Range(0.0, WhiteCap(lim, 1.5));
    assert NarrowAll(r, GREY, b, 1.0, 1) == Some(Range(0.0, 0.5));
    assert NarrowAll(r, GREY, b, 1.0, 2) == Some(Range(0.0, 0.5));
    assert NarrowAll(r, GREY, b, 1.0, 3) == Some(Range(0.0, 0.5));
  }

  lemma SkewedDuties(lim: Limits)
    requires lim.dutyMax == 1.0
    ensures Level(Range(0.0, 0.5), 1.0) == 0.5
    ensures DutiesAt(lim, 1.5, GREY, Vec(-1.0, -0.75, -0.25), 0.5) == Duty(1.0, 0.875, 0.625, 0.75, 0.0)
  {
    assert Rest(0.5, 0.5, -1.0) == 1.0 && Rest(0.5, 0.5, -0.75) == 0.875 && Rest(0.5, 0.5, -0.25) == 0.625;
    assert Warm(0.5, 1.5) == 0.75 && Cold(0.5, 1.5) == -0.25;
    hide Rest, Warm, Cold;
  }

  lemma SkewedLight()
    ensures Light(Duty(1.0, 0.875, 0.625, 0.75, 0.0), SKEWED) == Vec(0.625, 0.5, 0.625)
  {
    assert RgbLight(Vec(1.0, 0.875, 0.625), SKEWED) == Vec(1.0, 0.875, 0.625);
    assert WhiteLight(0.75, 0.0, SKEWED) == Vec(-0.375, -0.375, 0.0);
    hide Light, RgbLight, WhiteLight;
    LightParts(Vec(1.0, 0.875, 0.625), 0.75, 0.0, SKEWED);
  }

  /**
   The failing side of the condition: at full fidelity the share is 1.5 and the light is not the target;
   and where ww + cw is capped at 0.5, the same duties are given, with 0.75.
  */
  lemma SkewedWhitesMiss(lim: Limits)
    requires lim == Limits(1.0, 0.0) || lim == Limits(1.0, 0.5)
    ensures Regular(SKEWED, GREY, ANCHOR) && WhiteShare(SKEWED, ANCHOR) == 1.5
    ensures LevelsOf(lim, SKEWED, GREY, ANCHOR) == Range(0.0, 0.5)
    ensures ClosedForm(lim, SKEWED, GREY, ANCHOR, 1.0) == Some(Duty(1.0, 0.875, 0.625, 0.75, 0.0))
    ensures Light(Duty(1.0, 0.875, 0.625, 0.75, 0.0), SKEWED) == Vec(0.625, 0.5, 0.625)
    ensures SumKept(lim, Duty(1.0, 0.875, 0.625, 0.75, 0.0)) <==> lim.whiteSumMax == 0.0
  {
    hide WhiteShare, WhiteMix, Prepare, Levels, InvRgb, Mul, Singular, NoTiny, DutiesAt, Level, Light;
    SkewedShare();
    SkewedInverse(GREY);
    SkewedInverse(Vec(-1.0, -0.75, -0.25));
    PrepareParts(SKEWED, GREY, ANCHOR);
    SkewedLevels(lim);
    SkewedDuties(lim);
    SkewedLight();
  }
}
