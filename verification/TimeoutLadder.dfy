/**
 The three layers that stop a running valve: the delivery's own bound, the watchdog and the timer
 on the device. Each is spaced above the one it protects, in whole seconds, under the user's
 configured ceiling.
 */
module TimeoutLadder {
  import opened Rounding

  const DELIVERY_DURATION_MARGIN := 2.0
  const SAFETY_LAYER_SPREAD := 1.25

  function Least(a: int, b: int): int {
    if a <= b then a else b
  }

  /** The expected duration of the job at the configured guard flow; 0 when there is none. */
  function GuardDurationS(volumeL: real, flowLpm: real): int {
    if flowLpm <= 0.0 then 0 else RoundHalfEven(volumeL / flowLpm * 60.0)
  }

  function DeliveryTimeout(configuredS: int, expectedS: int): int {
    if expectedS <= 0 then configuredS
    else Least(configuredS, RoundHalfEven(expectedS as real * DELIVERY_DURATION_MARGIN))
  }

  function WatchdogTimeout(configuredS: int, expectedS: int): int {
    Least(configuredS, RoundHalfEven(DeliveryTimeout(configuredS, expectedS) as real * SAFETY_LAYER_SPREAD))
  }

  function HwMaxDurationS(configuredS: int, expectedS: int): int {
    Least(configuredS, RoundHalfEven(WatchdogTimeout(configuredS, expectedS) as real * SAFETY_LAYER_SPREAD))
  }

  /** Spreading a whole number of seconds never lowers it, and raises it from three seconds on. */
  lemma SpreadRises(s: int)
    requires s >= 0
    ensures RoundHalfEven(s as real * SAFETY_LAYER_SPREAD) >= s
    ensures RoundHalfEven(s as real * SAFETY_LAYER_SPREAD) > s <==> s >= 3
  {
    if s == 2 { assert 2.0 * SAFETY_LAYER_SPREAD == 2.5; }
  }

  /** The layers never overtake each other, nor the user's ceiling. */
  lemma LayersAreOrdered(configuredS: int, expectedS: int)
    requires configuredS >= 0
    ensures 0 <= DeliveryTimeout(configuredS, expectedS) <= WatchdogTimeout(configuredS, expectedS)
         <= HwMaxDurationS(configuredS, expectedS) <= configuredS
  {
    SpreadRises(DeliveryTimeout(configuredS, expectedS));
    SpreadRises(WatchdogTimeout(configuredS, expectedS));
  }

  /**
   A layer fires strictly after the one it protects exactly when that one leaves room under the
   ceiling and lasts at least three seconds: below that the spread rounds away.
   */
  lemma LayersAreStrict(configuredS: int, expectedS: int)
    requires configuredS >= 0
    ensures var delivery := DeliveryTimeout(configuredS, expectedS);
      var watchdog := WatchdogTimeout(configuredS, expectedS);
      && (delivery < watchdog <==> 3 <= delivery < configuredS)
      && (watchdog < HwMaxDurationS(configuredS, expectedS) <==> 3 <= watchdog < configuredS)
  {
    LayersAreOrdered(configuredS, expectedS);
    SpreadRises(DeliveryTimeout(configuredS, expectedS));
    SpreadRises(WatchdogTimeout(configuredS, expectedS));
  }

  /** With a guard flow, the delivery's bound cuts the expected job short exactly when the user's ceiling does. */
  lemma OnlyTheCeilingCutsTheJob(configuredS: int, volumeL: real, flowLpm: real)
    ensures var expectedS := GuardDurationS(volumeL, flowLpm);
      expectedS > 0 ==> (DeliveryTimeout(configuredS, expectedS) < expectedS <==> configuredS < expectedS)
  {
  }

  /** Without one the ladder is flat: all three layers are the ceiling. */
  lemma NoGuardFlowFlattensTheLadder(configuredS: int, volumeL: real, flowLpm: real)
    requires configuredS >= 0 && flowLpm <= 0.0
    ensures var expectedS := GuardDurationS(volumeL, flowLpm);
      DeliveryTimeout(configuredS, expectedS) == WatchdogTimeout(configuredS, expectedS)
      == HwMaxDurationS(configuredS, expectedS) == configuredS
  {
    SpreadRises(configuredS);
  }

  /** The expected duration is the nearest whole number of seconds to the litres over the litres a second. */
  lemma GuardIsNearest(volumeL: real, flowLpm: real)
    requires flowLpm > 0.0
    ensures -0.5 <= volumeL / flowLpm * 60.0 - GuardDurationS(volumeL, flowLpm) as real <= 0.5
  {
  }

  /** With room under the ceiling: twice the job, then a quarter more, then a quarter more again. */
  lemma LayersWithRoom(configuredS: int, expectedS: int)
    requires expectedS > 0 && configuredS >= 4 * expectedS
    ensures DeliveryTimeout(configuredS, expectedS) == 2 * expectedS
    ensures -2 <= 4 * WatchdogTimeout(configuredS, expectedS) - 10 * expectedS <= 2
    ensures -2 <= 4 * HwMaxDurationS(configuredS, expectedS) - 5 * WatchdogTimeout(configuredS, expectedS) <= 2
  {
  }
}
