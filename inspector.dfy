/** The inspection component: the lists, the flag, the recorded origin and the angles are fields
    that `Inspection` updates in place each frame, proved to follow InspectSpec.Inspection. */
module Inspector {
  import opened Engine
  import opened Lists
  import opened InspectSpec

  class Inspect {
    const cfg: Settings

    var objectsToInspect: seq<Collider>
    var objectsToIgnore: seq<Collider>
    /** Kept on the player's shared dependencies; other components read it. */
    var isInspecting: bool
    var inspectedObject: Option<ObjId>
    var objectOrigin: Vec3
    var objectRotation: Quat
    var originalDistance: Vec3
    var rotX: real
    var rotY: real
    /** The poses of the objects in the scene, which this component moves. */
    var scene: map<ObjId, Pose>
    var inspectPointLocal: Vec3

    function State(): InspectState
      reads this
    {
      InspectState(objectsToInspect, objectsToIgnore, isInspecting, inspectedObject, objectOrigin,
                   objectRotation, originalDistance, rotX, rotY, scene, inspectPointLocal)
    }

    constructor (cfg: Settings, scene: map<ObjId, Pose>, toInspect: seq<Collider>, toIgnore: seq<Collider>, inspectPoint: Vec3)
      ensures this.cfg == cfg
      ensures State() == Initial(scene, toInspect, toIgnore, inspectPoint)
      ensures Consistent(State())
    {
      this.cfg := cfg;
      objectsToInspect := toInspect;
      objectsToIgnore := toIgnore;
      isInspecting := false;
      inspectedObject := None;
      objectOrigin := Vec3(0.0, 0.0, 0.0);
      objectRotation := Quat(0.0, 0.0, 0.0, 0.0);
      originalDistance := Vec3(0.0, 0.0, 0.0);
      rotX, rotY := 0.0, 0.0;
      this.scene := scene;
      inspectPointLocal := inspectPoint;
    }

    /** Whether `inspectedObject != null` holds in the engine. */
    function Held(): bool
      reads this
    {
      inspectedObject.Some? && inspectedObject.value in scene
    }

    /** One frame: the keys, then the held object follows or is put back. */
    method Inspection(f: Frame)
      requires HitInScene(State(), f)
      modifies this
      ensures State() == InspectSpec.Inspection(cfg, old(State()), f)
    {
      HandleKeys(f);
      FollowOrRestore(f);
    }

    method HandleKeys(f: Frame)
      requires HitInScene(State(), f)
      modifies this
      ensures State() == Keys(old(State()), f)
    {
      if isInspecting {
        if f.inspectKeyDown {
          isInspecting := false;
        }
      } else if !isInspecting && !f.isGrabbing {
        if f.hit.Some? {
          var c := f.hit.value;
          if c !in objectsToIgnore {
            if f.addKeyDown {
              if c in objectsToInspect {
                objectsToInspect := RemoveFirst(objectsToInspect, c);
              } else {
                objectsToInspect := objectsToInspect + [c];
              }
            } else if f.inspectKeyDown {
              if c in objectsToInspect {
                isInspecting := true;
                inspectedObject := Some(c.gameObject);
                objectOrigin := scene[c.gameObject].position;
                objectRotation := scene[c.gameObject].rotation;
                originalDistance := inspectPointLocal;
              }
            }
          }
        }
      }
    }

    method FollowOrRestore(f: Frame)
      modifies this
      ensures State() == InspectSpec.Follow(cfg, old(State()), f)
    {
      if isInspecting && Held() {
        FollowInspectPoint(f);
      } else if !isInspecting && Held() {
        Restore();
      }
    }

    /** While inspecting: the object glides toward the inspect point and turns with the mouse;
        the scroll wheel moves the inspect point. */
    method FollowInspectPoint(f: Frame)
      requires Held()
      modifies this
      ensures State() == Hold(cfg, old(State()), f)
    {
      var obj := inspectedObject.value;
      var pose := scene[obj];
      pose := pose.(position := Lerp(pose.position, f.inspectPointWorld, cfg.pickupSpeed * f.deltaTime));
      var x, y := rotX + f.mouseX, rotY + f.mouseY;
      pose := pose.(rotation := f.spun);
      var point := inspectPointLocal;
      if f.scroll != 0.0 {
        point := point.(z := point.z + f.scroll * cfg.zoomSpeed);
      }
      ghost var h := Hold(cfg, State(), f);
      assert h.inspectPointLocal == point;
      assert h.scene[obj] == pose;
      assert h.scene == scene[obj := pose];
      scene, rotX, rotY, inspectPointLocal := scene[obj := pose], x, y, point;
    }

    /** After inspection: the recorded pose and inspect point come back. */
    method Restore()
      requires Held()
      modifies this
      ensures State() == Exit(old(State()))
    {
      var obj := inspectedObject.value;
      var pose := scene[obj].(position := objectOrigin);
      pose := pose.(rotation := objectRotation);
      scene, inspectPointLocal := scene[obj := pose], originalDistance;
      rotX, rotY := 0.0, 0.0;
      inspectedObject := None;
    }
  }
}
