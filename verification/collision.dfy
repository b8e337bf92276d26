/** Delivery of a physics `collide` event to a body: the event reaches `playSound` only
    if the body is subscribed. */
module Collision {
  import opened State
  import Sound
  import Removal

  /** A `collide` event dispatched on body `b` with the contact's impact velocity along the
      normal. `randomVolume` is what the random source yields if the sound is triggered. */
  function Collide(c: Context, b: BodyId, impactStrength: real, randomVolume: real): (r: Context)
    ensures r == c.(audio := r.audio)
    ensures r.audio != c.audio <==> b in c.listeners && impactStrength > Sound.ImpactThreshold
    ensures r.audio != c.audio ==> Sound.Restarted(c.audio, r.audio, randomVolume)
  {
    if b in c.listeners then
      Sound.PlaySoundChangesIff(c.audio, impactStrength, randomVolume);
      c.(audio := Sound.PlaySound(c.audio, impactStrength, randomVolume))
    else
      c
  }

  /** One `collide` event raised during a physics step: the body it is dispatched on, the
      contact's impact velocity along the normal, and the random volume drawn if it plays. */
  datatype CollisionEvent = CollisionEvent(body: BodyId, impactStrength: real, randomVolume: real)

  /** The event reaches `playSound` and clears the threshold. */
  predicate Heard(listeners: set<BodyId>, e: CollisionEvent)
  {
    e.body in listeners && e.impactStrength > Sound.ImpactThreshold
  }

  predicate NoneHeard(listeners: set<BodyId>, events: seq<CollisionEvent>)
  {
    forall i :: 0 <= i < |events| ==> !Heard(listeners, events[i])
  }

  /** How many of the events are heard. */
  function HeardCount(listeners: set<BodyId>, events: seq<CollisionEvent>): nat
    decreases |events|
  {
    if events == [] then 0
    else (if Heard(listeners, events[0]) then 1 else 0) + HeardCount(listeners, events[1..])
  }

  /** `events[k]` is heard and no later event is. */
  predicate LastHeardAt(listeners: set<BodyId>, events: seq<CollisionEvent>, k: int)
  {
    && 0 <= k < |events|
    && Heard(listeners, events[k])
    && forall j :: k < j < |events| ==> !Heard(listeners, events[j])
  }

  /** The events of one step, delivered in order. Only the audio changes, and it changes
      exactly when at least one event is heard. Each heard event requests one play; after
      any heard event the sound is rewound to the start, at the volume drawn for the last
      heard event. */
  function CollideAll(c: Context, events: seq<CollisionEvent>): (r: Context)
    ensures r == c.(audio := r.audio)
    ensures r.audio.playRequests == c.audio.playRequests + HeardCount(c.listeners, events)
    ensures r.audio == c.audio <==> NoneHeard(c.listeners, events)
    ensures !NoneHeard(c.listeners, events) ==>
      && r.audio.currentTime == 0.0
      && exists k :: LastHeardAt(c.listeners, events, k) && r.audio.volume == events[k].randomVolume
    decreases |events|
  {
    if events == [] then
      c
    else
      var e := events[0];
      var rest := events[1..];
      var next := Collide(c, e.body, e.impactStrength, e.randomVolume);
      var r := CollideAll(next, rest);
      assert forall j :: 0 <= j < |rest| ==> rest[j] == events[j + 1];
      assert NoneHeard(c.listeners, events) <==> !Heard(c.listeners, e) && NoneHeard(c.listeners, rest) by {
        if !Heard(c.listeners, e) && NoneHeard(c.listeners, rest) {
          forall i | 0 < i < |events|
            ensures !Heard(c.listeners, events[i])
          {
            assert events[i] == rest[i - 1];
          }
        }
      }
      assert !NoneHeard(c.listeners, events) ==>
        exists k :: LastHeardAt(c.listeners, events, k) && r.audio.volume == events[k].randomVolume by {
        if !NoneHeard(c.listeners, rest) {
          var k :| LastHeardAt(c.listeners, rest, k) && r.audio.volume == rest[k].randomVolume;
          forall j | k + 1 < j < |events|
            ensures !Heard(c.listeners, events[j])
          {
            assert events[j] == rest[j - 1];
          }
          assert LastHeardAt(c.listeners, events, k + 1);
        } else if Heard(c.listeners, e) {
          forall j | 0 < j < |events|
            ensures !Heard(c.listeners, events[j])
          {
            assert events[j] == rest[j - 1];
          }
          assert LastHeardAt(c.listeners, events, 0);
        }
      }
      r
  }

  /** Two heard events request two plays. */
  lemma TwoHeardEventsPlayTwice(c: Context, e1: CollisionEvent, e2: CollisionEvent)
    requires Heard(c.listeners, e1) && Heard(c.listeners, e2)
    ensures CollideAll(c, [e1, e2]).audio.playRequests == c.audio.playRequests + 2
    ensures CollideAll(c, [e1, e2]).audio.volume == e2.randomVolume
  {
    assert [e1, e2][1..] == [e2];
    assert [e2][1..] == [];
  }

  /** What the events do to the audio depends only on the audio and the listener set. */
  lemma {:induction false} CollideAllDependsOnAudioAndListeners(c: Context, d: Context, events: seq<CollisionEvent>)
    requires c.audio == d.audio && c.listeners == d.listeners
    ensures CollideAll(c, events).audio == CollideAll(d, events).audio
    decreases |events|
  {
    if events != [] {
      var e := events[0];
      CollideAllDependsOnAudioAndListeners(Collide(c, e.body, e.impactStrength, e.randomVolume),
                                           Collide(d, e.body, e.impactStrength, e.randomVolume), events[1..]);
    }
  }

  /** Events that reach a registered body after a reset are silent: its listener is gone. */
  lemma LateCollisionIgnored(c: Context, i: nat, impactStrength: real, randomVolume: real)
    requires 0 <= i < |c.registry|
    ensures var r := Removal.Reset(c);
      Collide(r, r.registry[i].body, impactStrength, randomVolume) == r
  {
  }

  /** The floor never listens, so a contact is only ever heard through the other body. */
  lemma FloorIsSilent(c: Context, impactStrength: real, randomVolume: real)
    requires Valid(c)
    ensures Collide(c, FloorId, impactStrength, randomVolume) == c
  {
  }
}
