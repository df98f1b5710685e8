// The linear conversion of an ability estimate to the ENEM presentation
// scale, `thetaParaENEM` of the API client.

module Client {
  import opened Wrappers

  /** `Math.round` on a finite number: the nearest integer, halves going
      up. */
  function Round(x: real): (n: int)
    ensures x - 0.5 < n as real <= x + 0.5
  {
    (x + 0.5).Floor
  }

  /** Only one integer lies in the half-open window `Round` lands in. */
  lemma RoundUnique(x: real, k: int)
    requires x - 0.5 < k as real <= x + 0.5
    ensures Round(x) == k
  {
  }

  /** An exact half goes up: `Math.round(k + 0.5) == k + 1`. */
  lemma RoundHalfUp(k: int)
    ensures Round(k as real + 0.5) == k + 1
  {
    RoundUnique(k as real + 0.5, k + 1);
  }

  lemma {:induction false} RoundMonotone(x: real, y: real)
    requires x <= y
    ensures Round(x) <= Round(y)
  {
    assert Round(x) as real < Round(y) as real + 1.0;
  }

  /** The defaults of the optional parameters. */
  const MediaPadrao: real := 500.0
  const DpPadrao: real := 100.0

  /** `thetaParaENEM(theta, media_enem = 500, dp_enem = 100)`; an omitted
      argument is `None`. */
  function ThetaParaENEM(theta: real, mediaEnem: Option<real>, dpEnem: Option<real>): (n: int)
    ensures var x := mediaEnem.GetOr(MediaPadrao) + theta * dpEnem.GetOr(DpPadrao);
            x - 0.5 < n as real <= x + 0.5
  {
    Round(mediaEnem.GetOr(MediaPadrao) + theta * dpEnem.GetOr(DpPadrao))
  }

  /** `theta = 0` lands on the rounded mean, 500 with the defaults. */
  lemma ThetaZero(mediaEnem: Option<real>, dpEnem: Option<real>)
    ensures ThetaParaENEM(0.0, mediaEnem, dpEnem) == Round(mediaEnem.GetOr(MediaPadrao))
    ensures ThetaParaENEM(0.0, None, None) == 500
  {
    RoundUnique(500.0, 500);
  }

  /** With the defaults each unit of theta is 100 points: theta = 1 gives
      600 and theta = -1 gives 400. */
  lemma DefaultScale()
    ensures ThetaParaENEM(1.0, None, None) == 600
    ensures ThetaParaENEM(-1.0, None, None) == 400
  {
    RoundUnique(600.0, 600);
    RoundUnique(400.0, 400);
  }

  /** A non-negative spread keeps the order of the abilities. */
  lemma ThetaParaENEMMonotone(t1: real, t2: real, mediaEnem: Option<real>, dpEnem: Option<real>)
    requires t1 <= t2
    requires dpEnem.GetOr(DpPadrao) >= 0.0
    ensures ThetaParaENEM(t1, mediaEnem, dpEnem) <= ThetaParaENEM(t2, mediaEnem, dpEnem)
  {
    var m := mediaEnem.GetOr(MediaPadrao);
    var dp := dpEnem.GetOr(DpPadrao);
    assert (t2 - t1) * dp >= 0.0;
    assert t2 * dp - t1 * dp == (t2 - t1) * dp;
    RoundMonotone(m + t1 * dp, m + t2 * dp);
  }
}
