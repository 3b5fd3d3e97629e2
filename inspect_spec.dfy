/** Inspection mode as a transition function over one record: the add-to-list key toggles a
    collider's membership in the inspect list, the inspect key enters inspection of a listed
    object (recording where it was) and leaves it again, and leaving puts the object and the
    inspect point back where they were recorded. */
module InspectSpec {
  import opened Engine
  import opened Lists

  /** A collider and the object it belongs to. */
  datatype Collider = Collider(id: ObjId, gameObject: ObjId)

  /** Where an object is and how it is turned. */
  datatype Pose = Pose(position: Vec3, rotation: Quat)

  /** The tunable speeds the bookkeeping reads. */
  datatype Settings = Settings(pickupSpeed: real, zoomSpeed: real)

  /** Everything the component changes. `scene` holds the pose of every object in the scene;
      an object that is not in it has been destroyed, and the engine compares such an object
      equal to null. `inspectPointLocal` is the inspect point's position relative to the camera. */
  datatype InspectState = InspectState(
    objectsToInspect: seq<Collider>,
    objectsToIgnore: seq<Collider>,
    isInspecting: bool,
    inspectedObject: Option<ObjId>,
    objectOrigin: Vec3,
    objectRotation: Quat,
    originalDistance: Vec3,
    rotX: real,
    rotY: real,
    scene: map<ObjId, Pose>,
    inspectPointLocal: Vec3)

  /** One frame of input: the collider the pickup-range ray hit, the two keys, whether the
      player is grabbing something, the mouse axes and scroll, where the inspect point is in the
      world, the frame time, and the rotation the engine builds from the accumulated angles. */
  datatype Frame = Frame(
    hit: Option<Collider>,
    addKeyDown: bool,
    inspectKeyDown: bool,
    isGrabbing: bool,
    mouseX: real,
    mouseY: real,
    scroll: real,
    inspectPointWorld: Vec3,
    deltaTime: real,
    spun: Quat)

  /** The engine's `inspectedObject != null`: a reference is set and its object still exists. */
  predicate Holding(s: InspectState)
  {
    s.inspectedObject.Some? && s.inspectedObject.value in s.scene
  }

  /** A ray only hits an object of the scene. */
  predicate HitInScene(s: InspectState, f: Frame)
  {
    f.hit.Some? ==> f.hit.value.gameObject in s.scene
  }

  /** The add-to-list key on a collider: removed (first occurrence) when listed, appended
      otherwise. */
  function Toggled(list: seq<Collider>, c: Collider): (r: seq<Collider>)
    ensures c in list ==> multiset(r) == multiset(list) - multiset{c}
    ensures c in list ==> exists k :: 0 <= k < |list| && list[k] == c && c !in list[..k] && r == list[..k] + list[k + 1..]
    ensures c !in list ==> r == list + [c]
    ensures forall d :: d != c ==> (d in r <==> d in list)
  {
    if c in list then
      var r := RemoveFirst(list, c);
      assert forall d :: d != c ==> (d in r <==> d in list) by {
        forall d | d != c
          ensures d in r <==> d in list
        {
          assert d in r <==> multiset(r)[d] > 0;
          assert d in list <==> multiset(list)[d] > 0;
        }
      }
      r
    else
      list + [c]
  }

  /** Entering inspection of the object behind `c`: its pose and the inspect point's local
      position are recorded. */
  function Enter(s: InspectState, c: Collider): InspectState
    requires c.gameObject in s.scene
  {
    var pose := s.scene[c.gameObject];
    s.(isInspecting := true,
       inspectedObject := Some(c.gameObject),
       objectOrigin := pose.position,
       objectRotation := pose.rotation,
       originalDistance := s.inspectPointLocal)
  }

  /** The upper half of Inspection: leave on the inspect key when inspecting; otherwise, when
      not grabbing and the ray hit a collider that is not ignored, the add-to-list key toggles
      it, and else the inspect key enters inspection of a listed one. */
  function Keys(s: InspectState, f: Frame): InspectState
    requires HitInScene(s, f)
  {
    if s.isInspecting then
      if f.inspectKeyDown then s.(isInspecting := false) else s
    else if f.isGrabbing then s
    else
      match f.hit
      case None => s
      case Some(c) =>
        if c in s.objectsToIgnore then s
        else if f.addKeyDown then s.(objectsToInspect := Toggled(s.objectsToInspect, c))
        else if f.inspectKeyDown && c in s.objectsToInspect then Enter(s, c)
        else s
  }

  /** A frame of inspection: the object glides toward the inspect point, the mouse turns it,
      and the scroll wheel moves the inspect point nearer or farther. */
  function Hold(cfg: Settings, s: InspectState, f: Frame): InspectState
    requires Holding(s)
  {
    var obj := s.inspectedObject.value;
    var pose := s.scene[obj];
    var position := Lerp(pose.position, f.inspectPointWorld, cfg.pickupSpeed * f.deltaTime);
    var p := s.inspectPointLocal;
    s.(rotX := s.rotX + f.mouseX,
       rotY := s.rotY + f.mouseY,
       scene := s.scene[obj := Pose(position, f.spun)],
       inspectPointLocal := if f.scroll != 0.0 then p.(z := p.z + f.scroll * cfg.zoomSpeed) else p)
  }

  /** Leaving inspection: the object's pose and the inspect point return to what was recorded,
      the angles are zeroed and the reference is dropped. */
  function Exit(s: InspectState): InspectState
    requires Holding(s)
  {
    var obj := s.inspectedObject.value;
    s.(scene := s.scene[obj := Pose(s.objectOrigin, s.objectRotation)],
       inspectPointLocal := s.originalDistance,
       rotX := 0.0,
       rotY := 0.0,
       inspectedObject := None)
  }

  /** The lower half of Inspection: a held object follows the inspect point while inspecting,
      and is put back once inspection is over. */
  function Follow(cfg: Settings, s: InspectState, f: Frame): InspectState
  {
    if s.isInspecting && Holding(s) then Hold(cfg, s, f)
    else if !s.isInspecting && Holding(s) then Exit(s)
    else s
  }

  /** Inspection, run once per frame. */
  function Inspection(cfg: Settings, s: InspectState, f: Frame): InspectState
    requires HitInScene(s, f)
  {
    Follow(cfg, Keys(s, f), f)
  }

  /** The invariant of the component: inspecting exactly when an existing object is held, and
      the angles at zero when not inspecting. */
  predicate Consistent(s: InspectState)
  {
    && (s.isInspecting <==> s.inspectedObject.Some?)
    && (s.inspectedObject.Some? ==> s.inspectedObject.value in s.scene)
    && (!s.isInspecting ==> s.rotX == 0.0 && s.rotY == 0.0)
  }

  function Initial(scene: map<ObjId, Pose>, toInspect: seq<Collider>, toIgnore: seq<Collider>, inspectPoint: Vec3): InspectState
  {
    InspectState(toInspect, toIgnore, false, None, Vec3(0.0, 0.0, 0.0), Quat(0.0, 0.0, 0.0, 0.0),
                 Vec3(0.0, 0.0, 0.0), 0.0, 0.0, scene, inspectPoint)
  }

  /** Frames one after another; every hit must lie in the scene, whose objects never go away. */
  function Run(cfg: Settings, s: InspectState, frames: seq<Frame>): (e: InspectState)
    requires forall i :: 0 <= i < |frames| ==> HitInScene(s, frames[i])
    ensures e.scene.Keys == s.scene.Keys
    decreases |frames|
  {
    if |frames| == 0 then s
    else
      var s1 := Inspection(cfg, s, frames[0]);
      SceneKeysKept(cfg, s, frames[0]);
      assert forall i :: 0 <= i < |frames[1..]| ==> HitInScene(s1, frames[1..][i]) by {
        forall i | 0 <= i < |frames[1..]|
          ensures HitInScene(s1, frames[1..][i])
        {
          assert HitInScene(s, frames[i + 1]);
        }
      }
      Run(cfg, s1, frames[1..])
  }

  lemma SceneKeysKept(cfg: Settings, s: InspectState, f: Frame)
    requires HitInScene(s, f)
    ensures Inspection(cfg, s, f).scene.Keys == s.scene.Keys
    ensures Inspection(cfg, s, f).objectsToIgnore == s.objectsToIgnore
  {
  }
}

/** What the inspection step promises. */
module InspectProperties {
  import opened Engine
  import opened Lists
  import opened InspectSpec

  /** The add-to-list key on a hit collider that is not ignored toggles its membership, and
      changes nothing else. */
  lemma AddKeyToggles(cfg: Settings, s: InspectState, f: Frame, c: Collider)
    requires Consistent(s) && HitInScene(s, f)
    requires !s.isInspecting && !f.isGrabbing && f.hit == Some(c) && c !in s.objectsToIgnore && f.addKeyDown
    ensures Inspection(cfg, s, f) == s.(objectsToInspect := Toggled(s.objectsToInspect, c))
    ensures c in s.objectsToInspect ==> |Inspection(cfg, s, f).objectsToInspect| == |s.objectsToInspect| - 1
    ensures c !in s.objectsToInspect ==> Inspection(cfg, s, f).objectsToInspect == s.objectsToInspect + [c]
  {
    var t := Toggled(s.objectsToInspect, c);
    if c in s.objectsToInspect {
      assert |multiset(t)| == |multiset(s.objectsToInspect)| - 1;
    }
  }

  /** On a list without repeats the toggle flips the collider's membership and keeps the list
      without repeats. */
  lemma ToggleFlipsMembership(list: seq<Collider>, c: Collider)
    requires Distinct(list)
    ensures c in Toggled(list, c) <==> c !in list
    ensures Distinct(Toggled(list, c))
  {
    var t := Toggled(list, c);
    if c in list {
      var k := IndexOf(list, c);
      DistinctRemoveAt(list, k);
    } else {
      forall i, j | 0 <= i < j < |t|
        ensures t[i] != t[j]
      {
        if j == |list| {
          assert t[i] == list[i];
        } else {
          assert t[i] == list[i] && t[j] == list[j];
        }
      }
    }
  }

  /** Only the hit collider can change its membership, and a collider in the ignore list
      never does. */
  lemma MembershipChangesOnlyForHit(cfg: Settings, s: InspectState, f: Frame, d: Collider)
    requires HitInScene(s, f)
    requires f.hit != Some(d) || d in s.objectsToIgnore
    ensures d in Inspection(cfg, s, f).objectsToInspect <==> d in s.objectsToInspect
  {
  }

  lemma IgnoredNeverChange(cfg: Settings, s: InspectState, f: Frame)
    requires HitInScene(s, f)
    ensures forall d :: d in s.objectsToIgnore ==>
      (d in Inspection(cfg, s, f).objectsToInspect <==> d in s.objectsToInspect)
  {
    forall d | d in s.objectsToIgnore
      ensures d in Inspection(cfg, s, f).objectsToInspect <==> d in s.objectsToInspect
    {
      MembershipChangesOnlyForHit(cfg, s, f, d);
    }
  }

  /** The list only changes when not inspecting, not grabbing and the add-to-list key is down. */
  lemma ListChangesOnlyOnAddKey(cfg: Settings, s: InspectState, f: Frame)
    requires HitInScene(s, f)
    requires s.isInspecting || f.isGrabbing || !f.addKeyDown
    ensures Inspection(cfg, s, f).objectsToInspect == s.objectsToInspect
  {
  }

  /** Inspection starts exactly when the player is neither inspecting nor grabbing, the ray hit
      a listed collider that is not ignored, the inspect key is down and the add-to-list key,
      which takes priority, is not. It records the object, its pose and the inspect point. */
  lemma EntryExactly(cfg: Settings, s: InspectState, f: Frame)
    requires Consistent(s) && HitInScene(s, f)
    requires !s.isInspecting
    ensures var e := Inspection(cfg, s, f);
      e.isInspecting <==>
        && !f.isGrabbing && f.hit.Some?
        && f.hit.value in s.objectsToInspect && f.hit.value !in s.objectsToIgnore
        && f.inspectKeyDown && !f.addKeyDown
    ensures var e := Inspection(cfg, s, f);
      e.isInspecting ==>
        var obj := f.hit.value.gameObject;
        && e.inspectedObject == Some(obj)
        && e.objectOrigin == s.scene[obj].position
        && e.objectRotation == s.scene[obj].rotation
        && e.originalDistance == s.inspectPointLocal
  {
  }

  /** Both keys in the same frame: the add-to-list key wins and inspection does not start. */
  lemma AddKeyHasPriority(cfg: Settings, s: InspectState, f: Frame)
    requires Consistent(s) && HitInScene(s, f)
    requires !s.isInspecting && f.addKeyDown && f.inspectKeyDown
    ensures !Inspection(cfg, s, f).isInspecting
    ensures Inspection(cfg, s, f).inspectedObject == None
  {
  }

  /** The inspect key while inspecting leaves inspection in that same frame: the object is put
      back where it was recorded, the inspect point too, and the angles are zeroed. */
  lemma InspectKeyLeaves(cfg: Settings, s: InspectState, f: Frame)
    requires Consistent(s) && HitInScene(s, f)
    requires s.isInspecting && f.inspectKeyDown
    ensures var e := Inspection(cfg, s, f);
      && !e.isInspecting && e.inspectedObject == None
      && e.scene == s.scene[s.inspectedObject.value := Pose(s.objectOrigin, s.objectRotation)]
      && e.inspectPointLocal == s.originalDistance
      && e.rotX == 0.0 && e.rotY == 0.0
      && e.objectsToInspect == s.objectsToInspect
  {
  }

  lemma InspectionKeepsConsistent(cfg: Settings, s: InspectState, f: Frame)
    requires Consistent(s) && HitInScene(s, f)
    ensures Consistent(Inspection(cfg, s, f))
  {
  }

  /** While inspecting and the inspect key stays up, a frame moves only the held object, the
      angles and the inspect point, and keeps what was recorded. */
  lemma HoldKeepsRecord(cfg: Settings, s: InspectState, f: Frame)
    requires Consistent(s) && HitInScene(s, f)
    requires s.isInspecting && !f.inspectKeyDown
    ensures var e := Inspection(cfg, s, f);
      && e.isInspecting && e.inspectedObject == s.inspectedObject
      && e.objectOrigin == s.objectOrigin && e.objectRotation == s.objectRotation
      && e.originalDistance == s.originalDistance
      && e.objectsToInspect == s.objectsToInspect && e.objectsToIgnore == s.objectsToIgnore
      && e.scene.Keys == s.scene.Keys
      && (forall o :: o in s.scene && Some(o) != s.inspectedObject ==> e.scene[o] == s.scene[o])
  {
  }

  /** Frames in which the inspect key stays up. */
  predicate KeyUp(frames: seq<Frame>)
  {
    forall i :: 0 <= i < |frames| ==> !frames[i].inspectKeyDown
  }

  /** What holding keeps: the record, the lists, and every other object's pose. */
  predicate KeepsRecord(a: InspectState, b: InspectState)
  {
    && b.isInspecting && b.inspectedObject == a.inspectedObject
    && b.objectOrigin == a.objectOrigin && b.objectRotation == a.objectRotation
    && b.originalDistance == a.originalDistance
    && b.objectsToInspect == a.objectsToInspect && b.objectsToIgnore == a.objectsToIgnore
    && b.scene.Keys == a.scene.Keys
    && (forall o :: o in a.scene && Some(o) != a.inspectedObject ==> b.scene[o] == a.scene[o])
  }

  lemma {:induction false} HoldsKeepRecord(cfg: Settings, s: InspectState, frames: seq<Frame>)
    requires Consistent(s) && s.isInspecting && KeyUp(frames)
    requires forall i :: 0 <= i < |frames| ==> HitInScene(s, frames[i])
    ensures Consistent(Run(cfg, s, frames))
    ensures KeepsRecord(s, Run(cfg, s, frames))
    decreases |frames|
  {
    if |frames| > 0 {
      var s1 := Inspection(cfg, s, frames[0]);
      HoldKeepsRecord(cfg, s, frames[0]);
      InspectionKeepsConsistent(cfg, s, frames[0]);
      assert forall i :: 0 <= i < |frames[1..]| ==> HitInScene(s1, frames[1..][i]) by {
        forall i | 0 <= i < |frames[1..]|
          ensures HitInScene(s1, frames[1..][i])
        {
          assert HitInScene(s, frames[i + 1]);
        }
      }
      assert KeyUp(frames[1..]) by {
        forall i | 0 <= i < |frames[1..]|
          ensures !frames[1..][i].inspectKeyDown
        {
          assert !frames[i + 1].inspectKeyDown;
        }
      }
      HoldsKeepRecord(cfg, s1, frames[1..]);
    }
  }

  /** The round trip: entering inspection, any number of frames with the inspect key up, then
      the inspect key again, leaves the scene, the inspect point, the angles and the list exactly
      as they were; only the recorded origin remains behind. */
  lemma EnterHoldExit(cfg: Settings, s: InspectState, enter: Frame, holds: seq<Frame>, leave: Frame)
    requires Consistent(s) && HitInScene(s, enter)
    requires !s.isInspecting && !enter.isGrabbing && enter.hit.Some?
    requires enter.hit.value in s.objectsToInspect && enter.hit.value !in s.objectsToIgnore
    requires enter.inspectKeyDown && !enter.addKeyDown
    requires KeyUp(holds) && leave.inspectKeyDown
    requires forall i :: 0 <= i < |holds| ==> HitInScene(s, holds[i])
    requires HitInScene(s, leave)
    ensures var obj := enter.hit.value.gameObject;
      Run(cfg, s, [enter] + holds + [leave]) ==
        s.(objectOrigin := s.scene[obj].position,
           objectRotation := s.scene[obj].rotation,
           originalDistance := s.inspectPointLocal)
  {
    var frames := [enter] + holds + [leave];
    var obj := enter.hit.value.gameObject;
    var s1 := Inspection(cfg, s, enter);
    EntryExactly(cfg, s, enter);
    InspectionKeepsConsistent(cfg, s, enter);
    assert s1.isInspecting;
    assert KeepsRecord(s1, s1) by {
      assert s1.inspectedObject == Some(obj);
    }
    // The whole run is the entry frame, the holds, then the exit frame.
    RunSplit(cfg, s, enter, holds, leave);
    HoldsKeepRecord(cfg, s1, holds);
    var s2 := Run(cfg, s1, holds);
    var e := Inspection(cfg, s2, leave);
    InspectKeyLeaves(cfg, s2, leave);
    assert e.scene == s.scene by {
      assert e.scene.Keys == s.scene.Keys;
      forall o | o in s.scene
        ensures e.scene[o] == s.scene[o]
      {
        if o == obj {
          assert e.scene[o] == Pose(s1.objectOrigin, s1.objectRotation);
        } else {
          assert s1.scene[o] == s.scene[o];
        }
      }
    }
  }

  /** The run of the round trip, frame group by frame group. */
  lemma RunSplit(cfg: Settings, s: InspectState, enter: Frame, holds: seq<Frame>, leave: Frame)
    requires HitInScene(s, enter) && HitInScene(s, leave)
    requires forall i :: 0 <= i < |holds| ==> HitInScene(s, holds[i])
    ensures var s1 := Inspection(cfg, s, enter);
      && (forall i :: 0 <= i < |holds| ==> HitInScene(s1, holds[i]))
      && HitInScene(Run(cfg, s1, holds), leave)
      && Run(cfg, s, [enter] + holds + [leave]) == Inspection(cfg, Run(cfg, s1, holds), leave)
  {
    var s1 := Inspection(cfg, s, enter);
    SceneKeysKept(cfg, s, enter);
    var frames := [enter] + holds + [leave];
    assert frames[0] == enter;
    assert frames[1..] == holds + [leave];
    RunAppendOne(cfg, s1, holds, leave);
  }

  lemma {:induction false} RunAppendOne(cfg: Settings, s: InspectState, a: seq<Frame>, f: Frame)
    requires forall i :: 0 <= i < |a| ==> HitInScene(s, a[i])
    requires HitInScene(s, f)
    ensures HitInScene(Run(cfg, s, a), f)
    ensures Run(cfg, s, a + [f]) == Inspection(cfg, Run(cfg, s, a), f)
    decreases |a|
  {
    if |a| > 0 {
      var s1 := Inspection(cfg, s, a[0]);
      SceneKeysKept(cfg, s, a[0]);
      assert (a + [f])[0] == a[0];
      assert (a + [f])[1..] == a[1..] + [f];
      assert forall i :: 0 <= i < |a[1..]| ==> HitInScene(s1, a[1..][i]) by {
        forall i | 0 <= i < |a[1..]|
          ensures HitInScene(s1, a[1..][i])
        {
          assert HitInScene(s, a[i + 1]);
        }
      }
      RunAppendOne(cfg, s1, a[1..], f);
    } else {
      assert a + [f] == [f];
    }
  }
}
