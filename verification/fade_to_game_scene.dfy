/** A full-screen fade: the fade value rises at the fade speed until the
    screen is black, then falls back and stops, raising an event at each
    turn. */
module Fading {
  import opened UnityMath

  /** The handlers the game subscribes: loading the game scene when the
      screen is black, and destroying the fader when it has faded back in. */
  datatype Handler = LoadGameScene | DestroyFader

  datatype FadeEvent = FadedOut | FadedIn

  const LowFade: real := 0.0001
  const HighFade: real := 0.9999

  /** The fade state: speed and value. */
  datatype Fade = Fade(speed: real, value: real)

  /** One `Update` of length dt, and the event it raises, if any. */
  function FadeStep(f: Fade, dt: real): (r: (Fade, seq<FadeEvent>))
    ensures 0.0 < r.0.value < 1.0
    ensures |r.1| <= 1
  {
    var v := f.value + Product(f.speed, dt);
    if v >= 1.0 then (Fade(-f.speed, HighFade), [FadedOut])
    else if v <= 0.0 then (Fade(0.0, LowFade), [FadedIn])
    else (Fade(f.speed, v), [])
  }

  /** The step raises FadedOut exactly when the value reaches 1, turning the
      fade round, and FadedIn exactly when it reaches 0, stopping it. */
  lemma FadeStepEvents(f: Fade, dt: real)
    ensures var (g, events) := FadeStep(f, dt);
            var v := f.value + Product(f.speed, dt);
            && (events == [FadedOut] <==> v >= 1.0)
            && (events == [FadedOut] ==> g == Fade(-f.speed, HighFade))
            && (events == [FadedIn] <==> 0.0 >= v)
            && (events == [FadedIn] ==> g == Fade(0.0, LowFade))
            && (events == [] ==> g == Fade(f.speed, v))
  {
  }

  /** At speed zero a value strictly inside (0, 1) stays put and nothing is
      raised; in particular a fade that has faded back in is at rest. */
  lemma StillFadeRests(f: Fade, dt: real)
    requires f.speed == 0.0 && 0.0 < f.value < 1.0
    ensures FadeStep(f, dt) == (f, [])
  {
    assert Product(f.speed, dt) == 0.0;
  }

  /** After a fade in the fader is at rest from then on. */
  lemma FadedInThenRests(f: Fade, dt: real, dt2: real)
    requires FadeStep(f, dt).1 == [FadedIn]
    ensures FadeStep(FadeStep(f, dt).0, dt2) == (FadeStep(f, dt).0, [])
  {
    StillFadeRests(FadeStep(f, dt).0, dt2);
  }

  /** The handlers a raised event invokes, in subscription order. */
  function Invoked(events: seq<FadeEvent>, onFadedOut: seq<Handler>, onFadedIn: seq<Handler>): (r: seq<Handler>)
    ensures events == [] ==> r == []
    ensures events == [FadedOut] ==> r == onFadedOut
    ensures events == [FadedIn] ==> r == onFadedIn
    ensures forall h :: h in r ==> h in onFadedOut || h in onFadedIn
  {
    if events == [] then []
    else (if events[0] == FadedOut then onFadedOut else onFadedIn) + Invoked(events[1..], onFadedOut, onFadedIn)
  }

  class FadeToGameScene {
    var fadeSpeed: real
    var currentFadeValue: real
    var onFadedOut: seq<Handler>
    var onFadedIn: seq<Handler>

    constructor ()
      ensures fadeSpeed == 0.0 && currentFadeValue == 0.0
      ensures onFadedOut == [] && onFadedIn == []
    {
      fadeSpeed := 0.0;
      currentFadeValue := 0.0;
      onFadedOut := [];
      onFadedIn := [];
    }

    /** `Awake`: not fading, the value just above zero. */
    method Awake()
      modifies this
      ensures fadeSpeed == 0.0 && currentFadeValue == LowFade
      ensures onFadedOut == old(onFadedOut) && onFadedIn == old(onFadedIn)
    {
      fadeSpeed := 0.0;
      currentFadeValue := LowFade;
    }

    /** `Update`: advance the value by speed times dt; at 1 or above clamp it
        to 0.9999, reverse the speed and raise OnFadedOut; at 0 or below clamp
        it to 0.0001, stop and raise OnFadedIn. Returns the handlers invoked. */
    method Update(dt: real) returns (invoked: seq<Handler>)
      modifies this
      ensures 0.0 < currentFadeValue < 1.0
      ensures var (g, events) := FadeStep(old(Fade(fadeSpeed, currentFadeValue)), dt);
              && Fade(fadeSpeed, currentFadeValue) == g
              && invoked == Invoked(events, onFadedOut, onFadedIn)
      ensures onFadedOut == old(onFadedOut) && onFadedIn == old(onFadedIn)
    {
      ghost var before := Fade(fadeSpeed, currentFadeValue);
      invoked := [];
      currentFadeValue := currentFadeValue + Product(fadeSpeed, dt);
      if currentFadeValue >= 1.0 {
        currentFadeValue := HighFade;
        fadeSpeed := -fadeSpeed;
        invoked := invoked + onFadedOut;
      }
      if currentFadeValue <= 0.0 {
        currentFadeValue := LowFade;
        fadeSpeed := 0.0;
        invoked := invoked + onFadedIn;
      }
      ghost var events := FadeStep(before, dt).1;
      assert events == [] || events[1..] == [];
    }

    /** `StartFade`: fade at the given speed from just above zero. */
    method StartFade(speed: real)
      modifies this
      ensures fadeSpeed == speed && currentFadeValue == LowFade
      ensures onFadedOut == old(onFadedOut) && onFadedIn == old(onFadedIn)
    {
      fadeSpeed := speed;
      currentFadeValue := LowFade;
    }

    /** `OnFadedOut += h`. */
    method SubscribeFadedOut(h: Handler)
      modifies this
      ensures onFadedOut == old(onFadedOut) + [h]
      ensures onFadedIn == old(onFadedIn) && fadeSpeed == old(fadeSpeed) && currentFadeValue == old(currentFadeValue)
    {
      onFadedOut := onFadedOut + [h];
    }

    /** `OnFadedIn += h`. */
    method SubscribeFadedIn(h: Handler)
      modifies this
      ensures onFadedIn == old(onFadedIn) + [h]
      ensures onFadedOut == old(onFadedOut) && fadeSpeed == old(fadeSpeed) && currentFadeValue == old(currentFadeValue)
    {
      onFadedIn := onFadedIn + [h];
    }
  }
}
