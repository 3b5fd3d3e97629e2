# Looparang bookkeeping, modelled in Dafny

This project models three components of the Looparang Unity prototype. Engine objects
(GameObjects, colliders, line renderers, the assets behind scratchpad nodes) are opaque
identities (`ObjId`). Positions and rotations are records of reals. Raycast hits, distances
the engine computes, key and mouse state and the frame time are inputs to each step.

- **The grappling hook** (`GrapplingHook.cs`). The component keeps five parallel lists: hooks,
  hook models, hook latches, rope colliders and ropes. It also keeps the flags `hooked`,
  `hookRelease` and `executeHookSwing`, the hold timer and the spring joint on the player.
  - Module `HookSpec` gives each routine as a transition function over the record `Rig`. It
    also defines the invariant `WellFormed`:
    - `|ropes| == |ropeColliders| == |hooks|`;
    - two models per hook;
    - one latch per hook except a pending last one;
    - hook i owns rope i, model 2i, and model 2i+1, which sits at its latch or at its button's
      spawn point;
    - rope colliders are distinct;
    - `hooked` holds exactly when the last hook waits for its latch.

    Every routine a frame runs is proved to keep the invariant: InputCheck, CreateHooks
    (with CreateHook and CreateHookLatch), CutRopes, DestroyLastHook and ResetHook. DestroyHook
    keeps it for every index except the pending last hook while `hooked`. That case arises only
    inside DestroyLastHook, whose flag reset restores the invariant. CreateHookLatch destroys
    the last hook only after clearing `hooked`.
  - Module `Hooks` holds the class `GrapplingHook`. Its fields are updated in place, and each
    method is proved to leave them exactly as the matching transition function says.
  - Module `HookProperties` states what the routines promise. This covers the list effects of
    each routine and the press/hold/release state machine over a run of frames.
- **The scratchpad** (`ScratchManager.cs`). Module `Scratch` holds the class `ScratchManager`.
  It covers the node list with its de-duplication of unique nodes, the re-adding of the
  stored nodes at start-up, and the toggle that keeps movement and the cursor in lock-step
  with the scratchpad canvas.
- **Inspection** (`Inspect.cs`). Module `InspectSpec` gives one frame of `Inspection` as a
  function. Module `InspectProperties` states the properties, and module `Inspector` holds the
  class `Inspect` that runs the frame in place. The behaviour modelled:
  - The add-to-list key toggles a collider in `objectsToInspect`, and ignored colliders are
    skipped.
  - The inspect key enters inspection and records the object's pose and the inspect point.
  - The held object follows the inspect point.
  - Leaving puts the object, the inspect point and the angles back.
- `Lists` models the engine's `List<T>` operations on sequences. `Engine` holds the shared
  values, `Vector3.Lerp` and a distance comparison free of square roots.

Exceptions are outcomes of the model, not preconditions:
- `DestroyHook(-1)` fails on `hooks[-1]`. This happens when the cut key hits a trigger that is
  not a registered rope collider. The frame then ends, and the reset key is not read.
- `LoadNodes` appends to the list its `foreach` is enumerating whenever a stored node is not
  marked unique. The enumerator then throws on its next step.

Both appear as a `threw` result.

## Model

| member | source | states |
|---|---|---|
| Lists.RemoveAt | Assets/Plugins/Proto_FPC/FPC_Resources/Scripts/FPC/GrapplingHook.cs:372 | `List.RemoveAt(i)` leaves a list exactly one entry shorter |
| Lists.RemoveAtIndices | Assets/Plugins/Proto_FPC/FPC_Resources/Scripts/FPC/GrapplingHook.cs:372 | after `RemoveAt(i)` the entries before i keep their positions and those after i move down by one, so order is kept |
| Lists.RemoveAtIfPresent | Assets/Plugins/Proto_FPC/FPC_Resources/Scripts/FPC/GrapplingHook.cs:374-382 | a removal guarded by `Count > i`, on a list long enough, gives a list one shorter whose entries before i are unchanged and whose entries from i on are the old ones from i + 1; on a shorter list nothing changes |
| Lists.IndexOf | Assets/Plugins/Proto_FPC/FPC_Resources/Scripts/FPC/GrapplingHook.cs:505-512 | the result is -1 exactly when x is absent; otherwise it is a position holding x with no occurrence of x before it |
| Lists.RemoveFirst | Assets/Plugins/Proto_FPC/FPC_Resources/Scripts/FPC/Inspect.cs:115 | `List.Remove(x)` leaves a list without x unchanged. Otherwise it removes the first occurrence of x and keeps the order of the rest, so the list is one shorter and its multiset loses exactly one x |
| Lists.DistinctRemoveAt | Assets/Plugins/Proto_FPC/FPC_Resources/Scripts/FPC/GrapplingHook.cs:379-382 | removing an entry from a repeat-free list keeps it repeat-free, and the removed entry is gone |
| Engine.Lerp | Assets/Plugins/Proto_FPC/FPC_Resources/Scripts/FPC/Inspect.cs:160 | `Vector3.Lerp` gives the start point for a fraction of 0 or less, the end point for 1 or more, and the point itself when start and end coincide |
| Engine.CloserThanIsDistance | Assets/Plugins/Proto_FPC/FPC_Resources/Scripts/FPC/GrapplingHook.cs:280-283 | the rope-length test without a square root agrees with `distance < minimumRopeLength` for the distance whose square is the squared distance |
| Engine.Clamp01 | Assets/Plugins/Proto_FPC/FPC_Resources/Scripts/FPC/Inspect.cs:160 | the interpolation fraction of `Vector3.Lerp` lies in [0, 1]: it is 0 below 0, 1 above 1, and left alone in between |
| HookSpec.JointLimitsFor | Assets/Plugins/Proto_FPC/FPC_Resources/Scripts/FPC/GrapplingHook.cs:207-208 | for either button and a non-negative distance, the joint's `minDistance <= maxDistance`, strictly so for a positive distance |
| HookSpec.LoweredLast | Assets/Plugins/Proto_FPC/FPC_Resources/Scripts/FPC/GrapplingHook.cs:224-225 | lowering the previous rope keeps every rope's host and button and every earlier rope; a previous rope with more than 2 positions ends with exactly 2, and otherwise the ropes are unchanged |
| HookSpec.Run | Assets/Plugins/Proto_FPC/FPC_Resources/Scripts/FPC/GrapplingHook.cs:82-88 | frame after frame (a throwing frame ends early), the list layout invariant holds after every run |
| HookSpec.UpdateKeepsWellFormed | Assets/Plugins/Proto_FPC/FPC_Resources/Scripts/FPC/GrapplingHook.cs:82-88 | one frame (input, both buttons, cut and reset) keeps the layout invariant |
| HookSpec.DestroyHookKeepsPaired | Assets/Plugins/Proto_FPC/FPC_Resources/Scripts/FPC/GrapplingHook.cs:370-399 | DestroyHook keeps the parallel layout: the `index * 2` model removal takes exactly the removed hook's two models, and the remaining hooks still own their ropes, models and latches |
| HookSpec.DestroyHookKeepsWellFormed | Assets/Plugins/Proto_FPC/FPC_Resources/Scripts/FPC/GrapplingHook.cs:370-399 | DestroyHook keeps the invariant unless it removes the pending last hook while `hooked` (then only DestroyLastHook's flag reset restores it) |
| HookSpec.DestroyLastHookKeepsWellFormed | Assets/Plugins/Proto_FPC/FPC_Resources/Scripts/FPC/GrapplingHook.cs:359-368 | DestroyLastHook keeps the invariant |
| HookSpec.CreateHookKeepsWellFormed | Assets/Plugins/Proto_FPC/FPC_Resources/Scripts/FPC/GrapplingHook.cs:148-229 | setting `hooked` and creating a first hook keeps the invariant: the new hook owns the new rope, both new models and a fresh rope collider |
| HookSpec.AttachLatchKeepsWellFormed | Assets/Plugins/Proto_FPC/FPC_Resources/Scripts/FPC/GrapplingHook.cs:231-277 | under the invariant and `hooked`, the reads `hookModels[^1]` and `hookLatches[hooks.Count - 1]` are in range, and latching keeps the invariant |
| HookSpec.CreateHookLatchKeepsWellFormed | Assets/Plugins/Proto_FPC/FPC_Resources/Scripts/FPC/GrapplingHook.cs:231-287 | CreateHookLatch, with or without the short-rope destruction, keeps the invariant |
| HookSpec.InputCheckKeepsWellFormed | Assets/Plugins/Proto_FPC/FPC_Resources/Scripts/FPC/GrapplingHook.cs:108-136 | the input check keeps the invariant |
| HookSpec.CreateHooksKeepsWellFormed | Assets/Plugins/Proto_FPC/FPC_Resources/Scripts/FPC/GrapplingHook.cs:139-162 | CreateHooks for either button keeps the invariant |
| HookSpec.ResetHookKeepsWellFormed | Assets/Plugins/Proto_FPC/FPC_Resources/Scripts/FPC/GrapplingHook.cs:401-419 | ResetHook establishes the invariant from any state |
| HookSpec.CutSelectedKeepsWellFormed | Assets/Plugins/Proto_FPC/FPC_Resources/Scripts/FPC/GrapplingHook.cs:341-353 | the cut key keeps the invariant |
| HookSpec.CutRopesKeepsWellFormed | Assets/Plugins/Proto_FPC/FPC_Resources/Scripts/FPC/GrapplingHook.cs:333-357 | CutRopes keeps the invariant |
| HookProperties.DestroyHookEffect | Assets/Plugins/Proto_FPC/FPC_Resources/Scripts/FPC/GrapplingHook.cs:370-397 | `hooks` shrinks by one and keeps the rest in order. Latches, colliders and ropes lose position `index` only when longer than `index`, otherwise they are unchanged. At most two models go, both from position `2 * index`. `hooked` drops when no hook is left. Nothing else changes |
| HookProperties.DestroyHookRemovesOwnModels | Assets/Plugins/Proto_FPC/FPC_Resources/Scripts/FPC/GrapplingHook.cs:384-393 | under the two-models-per-hook layout, the models removed at `index * 2` are exactly the one at the hook and the one at its latch or spawn point |
| HookProperties.DestroyLastHookEffect | Assets/Plugins/Proto_FPC/FPC_Resources/Scripts/FPC/GrapplingHook.cs:359-368 | `hooked` and `hookRelease` are always false afterwards. With no hooks no list changes; otherwise the last hook and the player's joint go |
| HookProperties.DestroyLastHookUndoesLastHook | Assets/Plugins/Proto_FPC/FPC_Resources/Scripts/FPC/GrapplingHook.cs:359-399 | under the invariant DestroyLastHook truncates every list by the last hook's entries; the latch list loses its last entry exactly when that hook was latched |
| HookProperties.LastHookGone | Assets/Plugins/Proto_FPC/FPC_Resources/Scripts/FPC/GrapplingHook.cs:370-395 | DestroyHook at the last index of equally long lists is a truncation of each list |
| HookProperties.ResetHookEffect | Assets/Plugins/Proto_FPC/FPC_Resources/Scripts/FPC/GrapplingHook.cs:401-419 | all five lists are empty and `hooked` is false afterwards; a second ResetHook changes nothing |
| HookProperties.CreateHookEffect | Assets/Plugins/Proto_FPC/FPC_Resources/Scripts/FPC/GrapplingHook.cs:164-225 | exactly one hook (at the hit point), one rope, one rope collider and two models are appended, and every earlier entry is kept. The new rope has `segments + 1` positions and the previous rope drops to 2 if it had more. The joint has `minDistance <= maxDistance` for a non-negative distance |
| HookProperties.CreateHookLatchEffect | Assets/Plugins/Proto_FPC/FPC_Resources/Scripts/FPC/GrapplingHook.cs:233-277 | for a long enough rope one latch is appended and the model count is unchanged. The last model is replaced by one parented to latch `hooks.Count - 1`, which is the new latch. `hooked` and the player's joint are gone |
| HookProperties.ShortLatchUndoesHook | Assets/Plugins/Proto_FPC/FPC_Resources/Scripts/FPC/GrapplingHook.cs:279-287 | a rope shorter than `minimumRopeLength` removes the whole pending hook (hook, rope, collider, both models) and leaves the latches as they were before the latch was added |
| HookProperties.CreateHooksStateMachine | Assets/Plugins/Proto_FPC/FPC_Resources/Scripts/FPC/GrapplingHook.cs:139-162 | with no press, a miss, a trigger or the player's body, nothing changes. When not hooked, a hit within `hookDistance` adds one hook and sets `hooked`. When hooked, the press either latches the hook or destroys it, and clears `hooked` |
| HookProperties.InputCheckOnlyFlags | Assets/Plugins/Proto_FPC/FPC_Resources/Scripts/FPC/GrapplingHook.cs:108-136 | the input check changes only the hold timer, `hookRelease` and `executeHookSwing` |
| HookProperties.InputCheckGuards | Assets/Plugins/Proto_FPC/FPC_Resources/Scripts/FPC/GrapplingHook.cs:108-136 | the swing is armed only while hooked. A release is raised only for a swing held at least `holdDelayToSwing`, and raising it disarms the swing. A press restarts the timer. Left Control or inspection leaves everything as it was |
| HookProperties.ReleaseDestroysLastHook | Assets/Plugins/Proto_FPC/FPC_Resources/Scripts/FPC/GrapplingHook.cs:335-338 | with `hookRelease` and `hooked` set, CutRopes removes the last hook and leaves both flags down |
| HookProperties.CutRemovesHitRope | Assets/Plugins/Proto_FPC/FPC_Resources/Scripts/FPC/GrapplingHook.cs:341-348 | the cut key on the trigger of rope collider k removes exactly hook k and collider k and keeps the invariant |
| HookProperties.CutUnknownColliderThrows | Assets/Plugins/Proto_FPC/FPC_Resources/Scripts/FPC/GrapplingHook.cs:345-347 | a hit trigger that is not a registered rope collider gives index -1, and the cut throws with every list unchanged |
| HookProperties.HoldStep | Assets/Plugins/Proto_FPC/FPC_Resources/Scripts/FPC/GrapplingHook.cs:117-121 | while hooked, a frame with a button held only runs the timer on, and arms the swing once it reaches `holdDelayToSwing` |
| HookProperties.RunHolds | Assets/Plugins/Proto_FPC/FPC_Resources/Scripts/FPC/GrapplingHook.cs:117-121 | any number of hold frames while hooked adds their frame times to the timer and changes nothing else |
| HookProperties.PressStep | Assets/Plugins/Proto_FPC/FPC_Resources/Scripts/FPC/GrapplingHook.cs:110-121 | a press while hooked, with the ray on nothing, restarts the timer, clears `hookRelease` and changes nothing else |
| HookProperties.ReleaseStep | Assets/Plugins/Proto_FPC/FPC_Resources/Scripts/FPC/GrapplingHook.cs:124-127 | the release of an armed swing destroys the pending hook in the same frame (through CutRopes); an unarmed release changes nothing |
| HookProperties.SwingAndRelease | Assets/Plugins/Proto_FPC/FPC_Resources/Scripts/FPC/GrapplingHook.cs:108-136 | press, hold and release while hooked, held at least `holdDelayToSwing` in total: the pending hook is gone, the latches are kept and both flags are down. Released sooner: nothing is removed and the player stays hooked |
| Hooks.GrapplingHook.constructor | Assets/Plugins/Proto_FPC/FPC_Resources/Scripts/FPC/GrapplingHook.cs:59-70 | a fresh component has empty lists and all flags down, and satisfies the invariant |
| Hooks.GrapplingHook.Update | Assets/Plugins/Proto_FPC/FPC_Resources/Scripts/FPC/GrapplingHook.cs:82-88 | the fields after a frame are the frame's transition, and the invariant is kept |
| Hooks.GrapplingHook.InputCheck | Assets/Plugins/Proto_FPC/FPC_Resources/Scripts/FPC/GrapplingHook.cs:108-136 | the fields end as the input-check transition says |
| Hooks.GrapplingHook.CreateHooks | Assets/Plugins/Proto_FPC/FPC_Resources/Scripts/FPC/GrapplingHook.cs:139-162 | the fields end as the CreateHooks transition says |
| Hooks.GrapplingHook.CreateHook | Assets/Plugins/Proto_FPC/FPC_Resources/Scripts/FPC/GrapplingHook.cs:164-229 | the fields end as the CreateHook transition says, including lowering the previous rope in place |
| Hooks.GrapplingHook.CreateHookLatch | Assets/Plugins/Proto_FPC/FPC_Resources/Scripts/FPC/GrapplingHook.cs:231-308 | the fields end as the CreateHookLatch transition says |
| Hooks.GrapplingHook.DestroyHook | Assets/Plugins/Proto_FPC/FPC_Resources/Scripts/FPC/GrapplingHook.cs:370-399 | it throws exactly when `index` is outside the hook list, and then nothing changes; otherwise the fields end as the DestroyHook transition says |
| Hooks.GrapplingHook.DestroyLastHook | Assets/Plugins/Proto_FPC/FPC_Resources/Scripts/FPC/GrapplingHook.cs:359-368 | the fields end as the DestroyLastHook transition says |
| Hooks.GrapplingHook.ResetHook | Assets/Plugins/Proto_FPC/FPC_Resources/Scripts/FPC/GrapplingHook.cs:401-419 | the fields end as the ResetHook transition says |
| Hooks.GrapplingHook.CutRopes | Assets/Plugins/Proto_FPC/FPC_Resources/Scripts/FPC/GrapplingHook.cs:333-357 | the fields and whether it threw are as the CutRopes transition says |
| Hooks.GrapplingHook.GameObjectToIndex | Assets/Plugins/Proto_FPC/FPC_Resources/Scripts/FPC/GrapplingHook.cs:505-512 | the linear search returns -1 exactly when no rope collider matches; otherwise it returns the first matching index |
| Scratch.AddedNodes | Assets/Scripts/ScratchManager.cs:58-60 | the node is in the list afterwards and the old list is a prefix. The list is unchanged exactly when the node is unique and already present; otherwise the node itself is appended at the end |
| Scratch.AddUniqueTwice | Assets/Scripts/ScratchManager.cs:59 | adding a unique node twice is adding it once |
| Scratch.AddRepeatableTwice | Assets/Scripts/ScratchManager.cs:59-60 | a node not marked unique goes in each time, so it appears twice more after two adds |
| Scratch.AddNodeKeepsUniqueAtMostOnce | Assets/Scripts/ScratchManager.cs:58-60 | if every unique node occurs at most once, that stays true after an add |
| Scratch.FirstRepeatable | Assets/Scripts/ScratchManager.cs:45-46 | finds the first stored node not marked unique, or -1 when all are unique |
| Scratch.LoadedNodes | Assets/Scripts/ScratchManager.cs:44-48 | re-adding the stored nodes throws exactly when some node is not unique. Without a throw the list is unchanged; with one, the list is the stored nodes followed by the first stored node not marked unique |
| Scratch.Toggled | Assets/Scripts/ScratchManager.cs:50-56 | the toggle flips the canvas flag; afterwards movement is on exactly when the canvas is off, and the cursor is visible and unlocked exactly when it is on |
| Scratch.ToggleTwice | Assets/Scripts/ScratchManager.cs:51-55 | two toggles restore the canvas flag; they restore every flag exactly when the flags started in lock-step |
| Scratch.ScratchManager.constructor | Assets/Scripts/ScratchManager.cs:28-32 | Awake starts with the stored nodes and the canvas disabled |
| Scratch.ScratchManager.AddNode | Assets/Scripts/ScratchManager.cs:58-65 | the node list ends as AddedNodes says and the flags are untouched |
| Scratch.ScratchManager.LoadNodes | Assets/Scripts/ScratchManager.cs:44-48 | the loop's final list and its throw agree with LoadedNodes; the flags are untouched |
| Scratch.ScratchManager.ToggleScratchpad | Assets/Scripts/ScratchManager.cs:50-56 | the flags end as Toggled says and the node list is untouched |
| InspectSpec.Toggled | Assets/Plugins/Proto_FPC/FPC_Resources/Scripts/FPC/Inspect.cs:112-120 | a listed collider loses its first occurrence, with the rest kept in order; an unlisted one is appended; every other collider keeps its membership |
| InspectSpec.Run | Assets/Plugins/Proto_FPC/FPC_Resources/Scripts/FPC/Inspect.cs:67-69 | frames of Inspection never add or remove scene objects |
| InspectSpec.SceneKeysKept | Assets/Plugins/Proto_FPC/FPC_Resources/Scripts/FPC/Inspect.cs:80-193 | one frame of Inspection keeps the scene's objects and never changes the ignore list |
| InspectProperties.AddKeyToggles | Assets/Plugins/Proto_FPC/FPC_Resources/Scripts/FPC/Inspect.cs:110-120 | the add-to-list key on a hit collider that is not ignored toggles it in the list (one shorter or appended), and nothing else changes |
| InspectProperties.ToggleFlipsMembership | Assets/Plugins/Proto_FPC/FPC_Resources/Scripts/FPC/Inspect.cs:114-119 | on a repeat-free list the toggle flips the collider's membership and the list stays repeat-free |
| InspectProperties.MembershipChangesOnlyForHit | Assets/Plugins/Proto_FPC/FPC_Resources/Scripts/FPC/Inspect.cs:110-120 | only the hit collider, and only when it is not ignored, can change its membership |
| InspectProperties.IgnoredNeverChange | Assets/Plugins/Proto_FPC/FPC_Resources/Scripts/FPC/Inspect.cs:110 | colliders in the ignore list never change their membership in the inspect list |
| InspectProperties.ListChangesOnlyOnAddKey | Assets/Plugins/Proto_FPC/FPC_Resources/Scripts/FPC/Inspect.cs:85-120 | the inspect list changes only when not inspecting, not grabbing and the add-to-list key is down |
| InspectProperties.EntryExactly | Assets/Plugins/Proto_FPC/FPC_Resources/Scripts/FPC/Inspect.cs:98-133 | inspection starts if and only if the player is neither inspecting nor grabbing, a listed and not ignored collider is hit, and the inspect key is down without the add-to-list key. On entry the object, its position, its rotation and the inspect point are recorded |
| InspectProperties.AddKeyHasPriority | Assets/Plugins/Proto_FPC/FPC_Resources/Scripts/FPC/Inspect.cs:112-123 | with both keys down, inspection does not start |
| InspectProperties.InspectKeyLeaves | Assets/Plugins/Proto_FPC/FPC_Resources/Scripts/FPC/Inspect.cs:85-192 | the inspect key while inspecting ends inspection in the same frame. The object's pose and the inspect point return to what was recorded, the angles are zeroed, the reference is dropped and the list is untouched |
| InspectProperties.InspectionKeepsConsistent | Assets/Plugins/Proto_FPC/FPC_Resources/Scripts/FPC/Inspect.cs:80-193 | inspecting holds exactly when an existing object is held, and the angles are zero when not inspecting; every frame keeps this |
| InspectProperties.HoldKeepsRecord | Assets/Plugins/Proto_FPC/FPC_Resources/Scripts/FPC/Inspect.cs:158-176 | a frame of inspection with the key up keeps the record, the lists and every other object's pose |
| InspectProperties.HoldsKeepRecord | Assets/Plugins/Proto_FPC/FPC_Resources/Scripts/FPC/Inspect.cs:158-176 | any number of such frames keeps the record, the lists, every other pose and the consistency invariant |
| InspectProperties.EnterHoldExit | Assets/Plugins/Proto_FPC/FPC_Resources/Scripts/FPC/Inspect.cs:80-193 | enter, any frames with the key up, then leave: the scene, the inspect point, the angles, the lists and the flags are exactly as before; only the recorded origin fields changed |
| Inspector.Inspect.constructor | Assets/Plugins/Proto_FPC/FPC_Resources/Scripts/FPC/Inspect.cs:34-52 | a fresh component is not inspecting, holds nothing and satisfies the consistency invariant |
| Inspector.Inspect.Inspection | Assets/Plugins/Proto_FPC/FPC_Resources/Scripts/FPC/Inspect.cs:80-193 | the fields after one frame are InspectSpec.Inspection of the fields before |
| Inspector.Inspect.HandleKeys | Assets/Plugins/Proto_FPC/FPC_Resources/Scripts/FPC/Inspect.cs:84-153 | the key half of the frame leaves the fields as the key transition says |
| Inspector.Inspect.FollowOrRestore | Assets/Plugins/Proto_FPC/FPC_Resources/Scripts/FPC/Inspect.cs:157-192 | the follow-or-restore half leaves the fields as the follow transition says |
| Inspector.Inspect.FollowInspectPoint | Assets/Plugins/Proto_FPC/FPC_Resources/Scripts/FPC/Inspect.cs:158-176 | the held object's pose, the angles and the inspect point end as the hold transition says |
| Inspector.Inspect.Restore | Assets/Plugins/Proto_FPC/FPC_Resources/Scripts/FPC/Inspect.cs:179-192 | the held object's pose, the inspect point and the angles go back to what was recorded, and the reference is dropped |

## Left out

- Rope drawing and the rope's visual spring (`DrawRopes`, `Spring`, the `isOptimizing` flag and its delayed lowering of the previous rope). These are floating-point trigonometry, an animation curve and a coroutine, and `Spring` is not part of this model.
- `RetractHooks` only changes spring strengths of joints, which the model does not track.
- Raycasts, rigid bodies, joints beyond the player's distance limits, impulses, and the plank `CreateHookLatch` places are left out. Each raycast hit is an input to the frame, and the engine computes the player's distance to a hook.
- CreateHooks' first raycast adds a kinematic body to the hit object. That side effect is not modelled.
- `hookModels.RemoveAll(null)` in CutRopes is left out. Under removal-only destruction no entry of the list is null, so it changes nothing.
- `DestroyAllObjectsInList` is a loop of `Destroy` calls that does not touch the lists. Under removal-only destruction it has no effect.
- `Destroy` is modelled as removal from the list that held the object. Unity's deferred destruction is not modelled.
- Rope material, colour and widths, rope-collider sizes and their enabled flag, and collider and rigid-body flags on the inspected object are left out.
- Audio is left out, including which clip ToggleScratchpad plays. So are the inspect icon and the aim dot.
- The cursor's actual lock behaviour is left out; only the two cursor flags are modelled.
- AddNode's UI node, its `Debug.Log` and the `onNewNode` event are left out.
- A stored node is the value (asset handle, unique flag), and two entries are equal when both parts agree. The engine compares node data by reference, and one asset carries one flag. The model does not rule out two entries that share a handle but differ in the flag, which the engine cannot produce.
- Unity's null for destroyed objects is modelled as absence from the scene map. Inspection assumes the hit collider's object is in the scene, and no object leaves the scene during a run.
- Inspection does not model the null dereference at Inspect.cs:90 when `isInspecting` is set while no object is held. The component never reaches that state from its initial state (`InspectionKeepsConsistent`); the flag lives on shared player dependencies, and writes to it by other components are not part of this model.
- FollowInspectPoint: the rotation the engine builds from the accumulated angles (`Quaternion.Euler` of the current rotation's components) is the frame input `spun`. The model does not compute it.
- FollowInspectPoint and Restore: local rotation and world rotation are treated as one rotation.
- Floating-point rounding is not modelled; `0.025f`, `0.95f` and `3f` are the exact reals.
- `Vector3.Distance` is compared through squared distances, which is exact over the reals.
- `Perspective.cs`, `Move.cs`, `EmancipationVolume.cs` and `GameManager.cs` are not part of this model.
