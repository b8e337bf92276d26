/** The single shared hit sound and the threshold rule that restarts it. */
module Sound {

  /** The audio element's observable state: its volume, its playback head, and
      how many times `play` has been requested on it. */
  datatype Audio = Audio(volume: real, currentTime: real, playRequests: nat)

  /** A fresh audio element: full volume, at the start, never played. */
  const InitialAudio: Audio := Audio(1.0, 0.0, 0)

  /** Impact speeds strictly above this restart the sound. */
  const ImpactThreshold: real := 1.5

  /** True when `after` is a restart of `before` at the given volume:
      played from the top at `volume`, with one more play request. */
  predicate Restarted(before: Audio, after: Audio, volume: real)
  {
    after == Audio(volume, 0.0, before.playRequests + 1)
  }

  /** The collision callback. `randomVolume` is the value the program draws from its
      random source for the volume; it is unrelated to the impact. */
  function PlaySound(a: Audio, impactStrength: real, randomVolume: real): (r: Audio)
    ensures impactStrength > ImpactThreshold ==> Restarted(a, r, randomVolume)
    ensures impactStrength <= ImpactThreshold ==> r == a
  {
    if impactStrength > ImpactThreshold then
      a.(volume := randomVolume, currentTime := 0.0, playRequests := a.playRequests + 1)
    else
      a
  }

  /** The rule is a strict threshold: the audio state changes exactly when the impact
      is strictly stronger than 1.5. */
  lemma PlaySoundChangesIff(a: Audio, impactStrength: real, randomVolume: real)
    ensures PlaySound(a, impactStrength, randomVolume) != a <==> impactStrength > ImpactThreshold
    ensures PlaySound(a, impactStrength, randomVolume).playRequests > a.playRequests
        <==> impactStrength > ImpactThreshold
  {
  }

  /** The boundary itself does not trigger; anything above it does. */
  lemma ThresholdBoundary(a: Audio, randomVolume: real)
    ensures PlaySound(a, 1.5, randomVolume) == a
    ensures Restarted(a, PlaySound(a, 1.5001, randomVolume), randomVolume)
  {
  }

  /** Two triggering impacts of different strength leave the same audio state:
      the volume does not depend on the impact. */
  lemma VolumeIgnoresStrength(a: Audio, s1: real, s2: real, randomVolume: real)
    requires s1 > ImpactThreshold && s2 > ImpactThreshold
    ensures PlaySound(a, s1, randomVolume) == PlaySound(a, s2, randomVolume)
    ensures PlaySound(a, s1, randomVolume).volume == randomVolume
  {
  }
}
