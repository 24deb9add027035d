/**
 * Scene objects and scenes (src/scene/scene_object.cpp,
 * include/khepri/scene/scene_object.hpp, include/khepri/scene/scene.hpp).
 * A scene object has a position, scale and rotation, a transform derived
 * from them, at most one behaviour per behaviour type, and at most one
 * user-data value per data type. A scene is a set of objects.
 */
module Scenes {
  import opened Errors
  import opened Vectors
  import opened Matrices

  /** A `std::type_index`: the identity of a C++ type, by name. */
  type TypeIndex = string

  /** A behaviour attached to an object; behaviours have identity and no state of their own here. */
  class Behavior {
    constructor ()
    {
    }
  }

  /** The identity rotation (`Quaternion::IDENTITY`). */
  const IDENTITY_ROTATION: Quaternion := Quaternion(0.0, 0.0, 0.0, 1.0)

  /** Whether every component of a scale is positive, as `create_srt` asserts. */
  predicate PositiveScale(s: Vector3<real>)
  {
    s.x > 0.0 && s.y > 0.0 && s.z > 0.0
  }

  /** `SceneObject`, with user data of type D. */
  class SceneObject<D> {
    var position: Vector3<real>
    var scale: Vector3<real>
    var rotation: Quaternion
    var transform: Matrix
    var behaviors: map<TypeIndex, Behavior>
    var userdata: map<TypeIndex, D>

    /** The transform is the scale-rotation-translation matrix of the three fields. */
    ghost predicate Valid()
      reads this
    {
      PositiveScale(scale) && transform == CreateSrt(scale, rotation, position)
    }

    /** Origin position, unit scale, identity rotation and transform, no behaviours and no user data. */
    constructor ()
      ensures Valid()
      ensures position == Vector3(0.0, 0.0, 0.0) && scale == Vector3(1.0, 1.0, 1.0)
      ensures rotation == IDENTITY_ROTATION && transform == IDENTITY
      ensures behaviors == map[] && userdata == map[]
    {
      position := Vector3(0.0, 0.0, 0.0);
      scale := Vector3(1.0, 1.0, 1.0);
      rotation := IDENTITY_ROTATION;
      transform := IDENTITY;
      behaviors := map[];
      userdata := map[];
      DefaultTransformIsSrt();
    }

    /** Sets the position and recomputes the transform; nothing else changes. */
    method SetPosition(p: Vector3<real>)
      requires Valid()
      modifies this
      ensures Valid() && position == p
      ensures scale == old(scale) && rotation == old(rotation)
      ensures behaviors == old(behaviors) && userdata == old(userdata)
    {
      position := p;
      UpdateTransform();
    }

    /** Sets the scale, which must be positive, and recomputes the transform; nothing else changes. */
    method SetScale(s: Vector3<real>)
      requires PositiveScale(s)
      modifies this
      ensures Valid() && scale == s
      ensures position == old(position) && rotation == old(rotation)
      ensures behaviors == old(behaviors) && userdata == old(userdata)
    {
      scale := s;
      UpdateTransform();
    }

    /** Sets the rotation and recomputes the transform; nothing else changes. */
    method SetRotation(q: Quaternion)
      requires Valid()
      modifies this
      ensures Valid() && rotation == q
      ensures position == old(position) && scale == old(scale)
      ensures behaviors == old(behaviors) && userdata == old(userdata)
    {
      rotation := q;
      UpdateTransform();
    }

    /** `update_transform`: the transform from the current scale, rotation and position. */
    method UpdateTransform()
      requires PositiveScale(scale)
      modifies this
      ensures Valid()
      ensures position == old(position) && scale == old(scale) && rotation == old(rotation)
      ensures behaviors == old(behaviors) && userdata == old(userdata)
    {
      transform := CreateSrt(scale, rotation, position);
    }

    /** `behavior(index)`: the behaviour registered for the type, or null when there is none. */
    method GetBehavior(index: TypeIndex) returns (b: Behavior?)
      ensures b == null <==> index !in behaviors
      ensures b != null ==> b == behaviors[index]
    {
      b := if index in behaviors then behaviors[index] else null;
    }

    /** `add_behavior`: stores the behaviour under the type, replacing any previous one, and returns it. */
    method AddBehavior(index: TypeIndex, behavior: Behavior) returns (r: Behavior)
      modifies this
      ensures r == behavior
      ensures behaviors == old(behaviors)[index := behavior]
      ensures position == old(position) && scale == old(scale) && rotation == old(rotation)
      ensures transform == old(transform) && userdata == old(userdata)
    {
      behaviors := behaviors[index := behavior];
      r := behaviors[index];
    }

    /** `create_behavior`: a new behaviour added under the type. */
    method CreateBehavior(index: TypeIndex) returns (r: Behavior)
      modifies this
      ensures fresh(r)
      ensures behaviors == old(behaviors)[index := r]
      ensures position == old(position) && scale == old(scale) && rotation == old(rotation)
      ensures transform == old(transform) && userdata == old(userdata)
    {
      var b := new Behavior();
      r := AddBehavior(index, b);
    }

    /** `remove_behavior`: true exactly when a behaviour was registered for the type; afterwards there is none. */
    method RemoveBehavior(index: TypeIndex) returns (removed: bool)
      modifies this
      ensures removed <==> index in old(behaviors)
      ensures behaviors == old(behaviors) - {index}
      ensures position == old(position) && scale == old(scale) && rotation == old(rotation)
      ensures transform == old(transform) && userdata == old(userdata)
    {
      removed := index in behaviors;
      behaviors := behaviors - {index};
    }

    /** `user_data_typeless(index)`: the value stored for the type, or none. */
    method GetUserData(index: TypeIndex) returns (d: Option<D>)
      ensures d.None? <==> index !in userdata
      ensures d.Some? ==> d.value == userdata[index]
    {
      d := if index in userdata then Some(userdata[index]) else None;
    }

    /** `user_data_typeless(index, data)`: stores the value for the type, replacing any previous one. */
    method SetUserData(index: TypeIndex, data: D)
      modifies this
      ensures userdata == old(userdata)[index := data]
      ensures position == old(position) && scale == old(scale) && rotation == old(rotation)
      ensures transform == old(transform) && behaviors == old(behaviors)
    {
      userdata := userdata[index := data];
    }
  }

  /** `Scene`: a set of scene objects. */
  class Scene<D> {
    var objects: set<SceneObject<D>>

    constructor ()
      ensures objects == {}
    {
      objects := {};
    }

    /** `add_object`: the object is in the scene afterwards; adding one already there changes nothing. */
    method AddObject(o: SceneObject<D>)
      modifies this
      ensures objects == old(objects) + {o}
    {
      objects := objects + {o};
    }

    /** `remove_object`: the object is not in the scene afterwards; removing an absent one changes nothing. */
    method RemoveObject(o: SceneObject<D>)
      modifies this
      ensures objects == old(objects) - {o}
    {
      objects := objects - {o};
    }
  }

  // ----- properties

  /** The default transform, the identity, is the scale-rotation-translation matrix of the default fields. */
  lemma {:induction false} DefaultTransformIsSrt()
    ensures CreateSrt(Vector3(1.0, 1.0, 1.0), IDENTITY_ROTATION, Vector3(0.0, 0.0, 0.0)) == IDENTITY
  {
    var m := CreateSrt(Vector3(1.0, 1.0, 1.0), IDENTITY_ROTATION, Vector3(0.0, 0.0, 0.0));
    forall r, c | 0 <= r < 4 && 0 <= c < 4
      ensures At(m, r, c) == At(IDENTITY, r, c)
    {
      IdentityEntries(r, c);
    }
    Ext(m, IDENTITY);
  }

  /** Adding an object puts it in the scene, leaves every other object's membership alone, and is idempotent. */
  lemma {:induction false} AddObjectMembership<D>(objects: set<SceneObject<D>>, o: SceneObject<D>, other: SceneObject<D>)
    ensures o in objects + {o}
    ensures other != o ==> (other in objects + {o} <==> other in objects)
    ensures o in objects ==> objects + {o} == objects
  {
  }

  /** Removing an object takes it out of the scene, leaves every other object's membership alone, and does nothing for an absent one. */
  lemma {:induction false} RemoveObjectMembership<D>(objects: set<SceneObject<D>>, o: SceneObject<D>, other: SceneObject<D>)
    ensures o !in objects - {o}
    ensures other != o ==> (other in objects - {o} <==> other in objects)
    ensures o !in objects ==> objects - {o} == objects
  {
  }
}
