/** The grappling hook component: the lists and flags live in fields that each step updates
    in place. Every method is proved to leave the fields exactly as the matching transition
    function of HookSpec says, so the lemmas in HookProperties speak about these methods. */
module Hooks {
  import opened Engine
  import opened Lists
  import opened HookSpec

  class GrapplingHook {
    const cfg: Config

    var hooks: seq<Hook>
    var hookModels: seq<HookModel>
    var hookLatches: seq<ObjId>
    var ropeColliders: seq<ObjId>
    var ropes: seq<Rope>
    var hooked: bool
    var hookRelease: bool
    var executeHookSwing: bool
    var mouseDownTimer: real
    /** The spring joint on the player, if any. */
    var playerJoint: Option<JointLimits>
    /** The identity the next created object receives. */
    var nextId: ObjId

    /** The fields as one record. */
    function State(): Rig
      reads this
    {
      Rig(hooks, hookModels, hookLatches, ropeColliders, ropes, hooked, hookRelease,
          executeHookSwing, mouseDownTimer, playerJoint, nextId)
    }

    predicate Valid()
      reads this
    {
      WellFormed(State())
    }

    /** A fresh component: empty lists, flags down, timer at zero. */
    constructor (cfg: Config, firstId: ObjId)
      ensures this.cfg == cfg
      ensures State() == Initial(firstId)
      ensures Valid()
    {
      this.cfg := cfg;
      hooks, hookModels, hookLatches, ropeColliders, ropes := [], [], [], [], [];
      hooked, hookRelease, executeHookSwing := false, false, false;
      mouseDownTimer := 0.0;
      playerJoint := None;
      nextId := firstId;
    }

    /** One frame: input, a hook or latch for each button, then the cut and reset keys. */
    method Update(f: Frame) returns (threw: bool)
      requires Valid()
      modifies this
      ensures Valid()
      ensures Outcome(State(), threw) == HookSpec.Update(cfg, old(State()), f)
    {
      InputCheckKeepsWellFormed(cfg, State(), f);
      InputCheck(f);
      CreateHooksKeepsWellFormed(cfg, State(), Left, f);
      CreateHooks(Left, f);
      CreateHooksKeepsWellFormed(cfg, State(), Right, f);
      CreateHooks(Right, f);
      CutRopesKeepsWellFormed(State(), f);
      threw := CutRopes(f);
    }

    method InputCheck(f: Frame)
      modifies this
      ensures State() == HookSpec.InputCheck(cfg, old(State()), f)
    {
      var timer, release, swing := mouseDownTimer, hookRelease, executeHookSwing;
      if (f.left.down || f.right.down) && Active(f) {
        timer, release, swing := 0.0, false, false;
      }
      if (f.left.held || f.right.held) && Active(f) {
        timer := timer + f.deltaTime;
        if hooked && timer >= cfg.holdDelayToSwing && !swing {
          swing := true;
        }
      }
      if (f.left.up || f.right.up) && Active(f) && timer >= cfg.holdDelayToSwing && swing {
        swing, release := false, true;
      }
      mouseDownTimer, hookRelease, executeHookSwing := timer, release, swing;
    }

    method CreateHooks(button: Button, f: Frame)
      requires Valid()
      modifies this
      ensures State() == HookSpec.CreateHooks(cfg, old(State()), button, f)
    {
      var mouse := if button == Left then f.left else f.right;
      if !(mouse.down && Active(f)) {
        return;
      }
      match f.grappleHit {
        case None =>
        case Some(hit) =>
          if !hooked {
            if hit.distance > cfg.hookDistance || hit.isTrigger || hit.isPlayer {
              return;
            }
            hooked := true;
            CreateHook(button, hit.point, f.playerDistance);
          } else {
            if hit.isTrigger || hit.isPlayer {
              return;
            }
            CreateHookLatch(hit.point);
          }
      }
    }

    /** A hook at `position`, with `distanceFromHook` the distance from the player to it. */
    method CreateHook(button: Button, position: Vec3, distanceFromHook: real)
      modifies this
      ensures State() == HookSpec.CreateHook(cfg, old(State()), button, position, distanceFromHook)
    {
      var hook := nextId;
      var models := hookModels + [HookModel(hook + 1, AtObject(hook))];
      models := models + [HookModel(hook + 2, AtSpawnPoint(button))];
      var rs := ropes + [Rope(hook, cfg.segments + 1, button)];
      var n := |rs|;
      if n > 1 && rs[n - 2].positionCount > 2 {
        rs := rs[n - 2 := rs[n - 2].(positionCount := 2)];
      }
      assert rs == LoweredLast(ropes) + [Rope(hook, cfg.segments + 1, button)];
      hooks, hookModels, ropes := hooks + [Hook(hook, position)], models, rs;
      playerJoint := Some(JointLimitsFor(button, distanceFromHook));
      ropeColliders := ropeColliders + [hook + 3];
      nextId := hook + 4;
    }

    method CreateHookLatch(point: Vec3)
      requires LatchReady(State())
      modifies this
      ensures State() == HookSpec.CreateHookLatch(cfg, old(State()), point)
    {
      var latch := nextId;
      var latches := hookLatches + [latch];
      var models := hookModels[..|hookModels| - 1];
      models := models + [HookModel(latch + 1, AtObject(latches[|hooks| - 1]))];
      hookLatches, hookModels := latches, models;
      playerJoint := None;
      hooked := false;
      nextId := latch + 2;
      assert State() == AttachLatch(old(State()));
      if CloserThan(hooks[|hooks| - 1].position, point, cfg.minimumRopeLength) {
        var _ := DestroyHook(|hooks| - 1);
      }
    }

    /** Removes hook `index` and what belongs to it. An index outside the hook list fails
        the first list access, which throws before anything changes. */
    method DestroyHook(index: int) returns (threw: bool)
      modifies this
      ensures threw <==> !(0 <= index < |old(hooks)|)
      ensures threw ==> State() == old(State())
      ensures !threw ==> State() == HookSpec.DestroyHook(old(State()), index)
    {
      if !(0 <= index < |hooks|) {
        return true;
      }
      var hookModelIndex := index * 2;
      hooks := RemoveAt(hooks, index);
      hookLatches := RemoveAtIfPresent(hookLatches, index);
      ropeColliders := RemoveAtIfPresent(ropeColliders, index);
      hookModels := RemoveAtIfPresent(hookModels, hookModelIndex);
      hookModels := RemoveAtIfPresent(hookModels, hookModelIndex);
      ropes := RemoveAtIfPresent(ropes, index);
      if |hooks| == 0 {
        hooked := false;
      }
      threw := false;
    }

    method DestroyLastHook()
      modifies this
      ensures State() == HookSpec.DestroyLastHook(old(State()))
    {
      if |hooks| > 0 {
        playerJoint := None;
        var _ := DestroyHook(|hooks| - 1);
      }
      hooked := false;
      hookRelease := false;
    }

    method ResetHook()
      modifies this
      ensures State() == HookSpec.ResetHook(old(State()))
    {
      hooked := false;
      if |hooks| > 0 {
        playerJoint := None;
      }
      hooks := [];
      hookModels := [];
      hookLatches := [];
      ropes := [];
      ropeColliders := [];
    }

    /** The release of a held swing, the cut key and the reset key. A cut aimed at a trigger
        that is not a registered rope collider throws and ends the frame. */
    method CutRopes(f: Frame) returns (threw: bool)
      modifies this
      ensures Outcome(State(), threw) == HookSpec.CutRopes(old(State()), f)
    {
      if hookRelease && hooked {
        hookRelease := false;
        DestroyLastHook();
      }
      ghost var r1 := State();
      threw := false;
      if f.cutRopeHeld && !f.isInspecting {
        if hooked {
          DestroyLastHook();
        } else if f.ropeHit.Some? && f.ropeHit.value.isTrigger {
          var index := GameObjectToIndex(f.ropeHit.value.obj);
          threw := DestroyHook(index);
          if threw {
            return;
          }
        }
      }
      assert Outcome(State(), threw) == HookSpec.CutSelected(r1, f);
      if f.resetHookDown && !f.isInspecting {
        ResetHook();
      }
    }

    /** The position of `go` in the rope-collider list, or -1 when it is not there. */
    method GameObjectToIndex(go: ObjId) returns (i: int)
      ensures -1 <= i < |ropeColliders|
      ensures i == -1 <==> go !in ropeColliders
      ensures 0 <= i ==> ropeColliders[i] == go && go !in ropeColliders[..i]
      ensures i == IndexOf(ropeColliders, go)
    {
      var k := 0;
      while k < |ropeColliders|
        invariant 0 <= k <= |ropeColliders|
        invariant go !in ropeColliders[..k]
      {
        if ropeColliders[k] == go {
          IndexOfFirst(ropeColliders, go, k);
          return k;
        }
        k := k + 1;
      }
      assert ropeColliders[..k] == ropeColliders;
      return -1;
    }
  }
}
