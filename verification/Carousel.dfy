/** Carousel of firmware/src/app/Carousel.cpp: the steps of Rotation on fields. */
module Carousel {
  import opened Basics
  import opened AppRegistry
  import opened Rotation

  class Carousel {
    const registry: AppRegistry
    var config: Config
    var activeId: string
    var lastIndex: int
    var activeSince: nat
    var paused: bool
    var pinnedId: string

    constructor (registry: AppRegistry, config: Config)
      ensures this.registry == registry && this.config == config && Now() == FRESH
    {
      this.registry, this.config := registry, config;
      activeId, lastIndex, activeSince, paused, pinnedId := "", -1, 0, false, "";
    }

    function Now(): State
      reads this
    {
      State(activeId, lastIndex, activeSince, paused, pinnedId)
    }

    method ActivateIndex(index: int, now: nat)
      modifies this`activeId, this`lastIndex, this`activeSince
      ensures Now() == Activated(old(Now()), registry.apps, index, now)
    {
      if index < 0 || index >= |registry.apps| {
        activeId, lastIndex, activeSince := "", -1, now;
        return;
      }
      activeId, lastIndex, activeSince := registry.apps[index].id, index, now;
    }

    /** Where what is shown stands, or -1. */
    method Current() returns (i: int)
      ensures i == Place(Now(), registry.apps)
    {
      i := -1;
      if activeId != "" {
        i := registry.Position(activeId);
      }
    }

    /** Apps whose time is over go first, so that what is shown settles among
        those that are left. */
    method Tick(now: nat) returns (changed: bool)
      requires registry.Valid()
      modifies this, registry
      ensures registry.Valid() && registry.apps == Lasting(old(registry.apps), now) && config == old(config)
      ensures Now() == Rotation.Tick(old(Now()), registry.apps, config, now) && Settled(Now(), registry.apps)
      ensures changed == (activeId != old(activeId))
    {
      hide Search, IndexOf, Lasting, Settled;
      var before := activeId;
      var ignored := registry.Expire(now);
      TickSettles(Now(), registry.apps, config, now);
      if pinnedId != "" {
        var pinned := registry.Position(pinnedId);
        if pinned >= 0 && registry.apps[pinned].enabled {
          if activeId != pinnedId {
            ActivateIndex(pinned, now);
          }
          return activeId != before;
        }
        pinnedId := "";
      }
      var current := Current();
      if current < 0 || !registry.apps[current].enabled {
        var found := registry.Next(if lastIndex >= 0 then lastIndex - 1 else -1);
        ActivateIndex(found, now);
        return activeId != before;
      }
      if paused {
        return false;
      }
      if !config.autoAdvance {
        return false;
      }
      var dwell := if now < activeSince then 0 else now - activeSince;
      if dwell >= DurationMillis(registry.apps[current], config) {
        var found := registry.Next(current);
        ActivateIndex(found, now);
      }
      return activeId != before;
    }

    method Next(now: nat) returns (changed: bool)
      requires registry.Valid()
      modifies this
      ensures Now() == Rotation.Next(old(Now()), registry.apps, now) && Settled(Now(), registry.apps)
      ensures changed == (activeId != old(activeId))
    {
      hide Search, IndexOf, Settled;
      ButtonsSettle(Now(), registry.apps, now);
      pinnedId := "";
      var before := activeId;
      var from := Current();
      var found := registry.Next(from);
      ActivateIndex(found, now);
      changed := activeId != before;
    }

    method Previous(now: nat) returns (changed: bool)
      requires registry.Valid()
      modifies this
      ensures Now() == Rotation.Previous(old(Now()), registry.apps, now) && Settled(Now(), registry.apps)
      ensures changed == (activeId != old(activeId))
    {
      hide Search, IndexOf, Settled;
      ButtonsSettle(Now(), registry.apps, now);
      pinnedId := "";
      var before := activeId;
      var from := Current();
      var found := registry.Previous(if from >= 0 then from else 0);
      ActivateIndex(found, now);
      changed := activeId != before;
    }

    /** Holds an app on the panel until it goes or the user moves on. */
    method Pin(id: string, now: nat) returns (ok: bool)
      modifies this
      ensures (Now(), ok) == Rotation.Pin(old(Now()), registry.apps, id, now)
    {
      hide IndexOf;
      var i := registry.Position(id);
      if i < 0 || !registry.apps[i].enabled {
        return false;
      }
      pinnedId := id;
      ActivateIndex(i, now);
      return true;
    }

    /** Goes to an app; the rotation carries on from there. */
    method Activate(id: string, now: nat) returns (ok: bool)
      modifies this
      ensures (Now(), ok) == Rotation.Jump(old(Now()), registry.apps, id, now)
    {
      hide IndexOf;
      var i := registry.Position(id);
      if i < 0 || !registry.apps[i].enabled {
        return false;
      }
      pinnedId := "";
      ActivateIndex(i, now);
      return true;
    }
  }
}
