/**
 * Owning Vulkan handles (include/khepri/renderer/vulkan/detail/memory.hpp).
 * Handles, owners, allocators and destroy functions are numbers, 0 standing
 * for `VK_NULL_HANDLE` and `nullptr`. The foreign destroy function is
 * modelled by the record of its calls.
 */
module VulkanHandles {
  /** The null handle, owner, allocator and function. */
  const NULL: nat := 0

  /** One call of a destroy function: which function, on which owner, handle and allocator. */
  datatype Call = Call(destroyFunc: nat, owner: nat, handle: nat, allocator: nat)

  /** The record of destroy calls made so far, in order. */
  class DestroyLog {
    var calls: seq<Call>

    constructor ()
      ensures calls == []
    {
      calls := [];
    }
  }

  /** `UniqueVkHandle`: a handle owned by an owner object, destroyed through the owner. */
  class UniqueVkHandle {
    var handle: nat
    var owner: nat
    var allocator: nat
    var destroyFunc: nat

    /** The calls `destroy` makes: one when both the handle and the function are set, else none. */
    function DestroyCalls(): (calls: seq<Call>)
      reads this
      ensures handle != NULL && destroyFunc != NULL ==> calls == [Call(destroyFunc, owner, handle, allocator)]
      ensures handle == NULL || destroyFunc == NULL ==> calls == []
    {
      if handle != NULL && destroyFunc != NULL then [Call(destroyFunc, owner, handle, allocator)] else []
    }

    /** The default handle: everything null. */
    constructor Default()
      ensures handle == NULL && owner == NULL && allocator == NULL && destroyFunc == NULL
    {
      handle, owner, allocator, destroyFunc := NULL, NULL, NULL, NULL;
    }

    constructor (handle: nat, owner: nat, allocator: nat, destroyFunc: nat)
      ensures this.handle == handle && this.owner == owner
      ensures this.allocator == allocator && this.destroyFunc == destroyFunc
    {
      this.handle, this.owner, this.allocator, this.destroyFunc := handle, owner, allocator, destroyFunc;
    }

    /** Move construction: takes the other's handle and leaves it null; the rest is copied. */
    constructor MoveFrom(other: UniqueVkHandle)
      modifies other
      ensures handle == old(other.handle) && other.handle == NULL
      ensures owner == other.owner && allocator == other.allocator && destroyFunc == other.destroyFunc
      ensures other.owner == old(other.owner) && other.allocator == old(other.allocator)
      ensures other.destroyFunc == old(other.destroyFunc)
    {
      handle := NULL;
      owner, allocator, destroyFunc := other.owner, other.allocator, other.destroyFunc;
      new;
      handle, other.handle := other.handle, handle;
    }

    /** The destructor (`destroy`): calls the destroy function when both the handle and the function are set. */
    method Destroy(log: DestroyLog)
      modifies log
      ensures log.calls == old(log.calls) + DestroyCalls()
    {
      if handle != NULL && destroyFunc != NULL {
        log.calls := log.calls + [Call(destroyFunc, owner, handle, allocator)];
      }
    }

    /**
     * Move assignment: destroys the current handle first, then takes the
     * other's handle and the rest, and leaves the other's handle null. A
     * handle moved into itself ends up null.
     */
    method MoveAssign(other: UniqueVkHandle, log: DestroyLog)
      modifies this, other, log
      ensures log.calls == old(log.calls) + old(DestroyCalls())
      ensures owner == old(other.owner) && allocator == old(other.allocator) && destroyFunc == old(other.destroyFunc)
      ensures other != this ==> handle == old(other.handle) && other.handle == NULL
      ensures other != this ==> other.owner == old(other.owner) && other.allocator == old(other.allocator) &&
                                other.destroyFunc == old(other.destroyFunc)
      ensures other == this ==> handle == NULL
    {
      Destroy(log);
      owner := other.owner;
      allocator := other.allocator;
      destroyFunc := other.destroyFunc;
      handle := other.handle;
      other.handle := NULL;
    }

    /** The conversion to the handle type: the handle currently owned. */
    function Get(): (h: nat)
      reads this
      ensures h == handle
    {
      handle
    }
  }

  /** `UniqueVkInstance`: a handle without an owner, such as the instance itself. */
  class UniqueVkInstance {
    var handle: nat
    var allocator: nat
    var destroyFunc: nat

    /** The calls the destructor makes: one whenever the function is set, even for a null handle. */
    function DestroyCalls(): (calls: seq<Call>)
      reads this
      ensures destroyFunc != NULL ==> calls == [Call(destroyFunc, NULL, handle, allocator)]
      ensures destroyFunc == NULL ==> calls == []
    {
      if destroyFunc != NULL then [Call(destroyFunc, NULL, handle, allocator)] else []
    }

    constructor Default()
      ensures handle == NULL && allocator == NULL && destroyFunc == NULL
    {
      handle, allocator, destroyFunc := NULL, NULL, NULL;
    }

    constructor (handle: nat, allocator: nat, destroyFunc: nat)
      ensures this.handle == handle && this.allocator == allocator && this.destroyFunc == destroyFunc
    {
      this.handle, this.allocator, this.destroyFunc := handle, allocator, destroyFunc;
    }

    /** Move construction: takes the other's handle and leaves it null; the rest is copied. */
    constructor MoveFrom(other: UniqueVkInstance)
      modifies other
      ensures handle == old(other.handle) && other.handle == NULL
      ensures allocator == other.allocator && destroyFunc == other.destroyFunc
      ensures other.allocator == old(other.allocator) && other.destroyFunc == old(other.destroyFunc)
    {
      handle := NULL;
      allocator, destroyFunc := other.allocator, other.destroyFunc;
      new;
      handle, other.handle := other.handle, handle;
    }

    /** The destructor: calls the destroy function whenever it is set. */
    method Destroy(log: DestroyLog)
      modifies log
      ensures log.calls == old(log.calls) + DestroyCalls()
    {
      if destroyFunc != NULL {
        log.calls := log.calls + [Call(destroyFunc, NULL, handle, allocator)];
      }
    }

    /**
     * Move assignment: copies the other's allocator and function and swaps
     * the handles; nothing is destroyed.
     */
    method MoveAssign(other: UniqueVkInstance)
      modifies this, other
      ensures allocator == old(other.allocator) && destroyFunc == old(other.destroyFunc)
      ensures other != this ==> handle == old(other.handle) && other.handle == old(handle)
      ensures other != this ==> other.allocator == old(other.allocator) && other.destroyFunc == old(other.destroyFunc)
      ensures other == this ==> handle == old(handle)
    {
      allocator := other.allocator;
      destroyFunc := other.destroyFunc;
      handle, other.handle := other.handle, handle;
    }

    /** The conversion to the handle type: the handle currently owned. */
    function Get(): (h: nat)
      reads this
      ensures h == handle
    {
      handle
    }
  }

  // ----- properties, as the calls whole lifetimes make

  /** A default handle destroys nothing. */
  method DefaultDestroysNothing() returns (calls: seq<Call>)
    ensures calls == []
  {
    var log := new DestroyLog();
    var h := new UniqueVkHandle.Default();
    h.Destroy(log);
    calls := log.calls;
  }

  /**
   * A handle moved into a second one and then both destroyed: the handle is
   * destroyed exactly once, by the second.
   */
  method MoveConstructDestroysOnce(handle: nat, owner: nat, allocator: nat, destroyFunc: nat) returns (calls: seq<Call>)
    requires handle != NULL && destroyFunc != NULL
    ensures calls == [Call(destroyFunc, owner, handle, allocator)]
  {
    var log := new DestroyLog();
    var a := new UniqueVkHandle(handle, owner, allocator, destroyFunc);
    var b := new UniqueVkHandle.MoveFrom(a);
    a.Destroy(log);
    b.Destroy(log);
    calls := log.calls;
  }

  /**
   * Move assignment between two live handles, then both destroyed: the
   * target's old handle is destroyed at the assignment, the moved handle
   * once at the end, and nothing else.
   */
  method MoveAssignDestroysEachOnce(h1: nat, h2: nat, owner: nat, f: nat) returns (calls: seq<Call>)
    requires h1 != NULL && h2 != NULL && f != NULL
    ensures calls == [Call(f, owner, h1, NULL), Call(f, owner, h2, NULL)]
  {
    var log := new DestroyLog();
    var a := new UniqueVkHandle(h1, owner, NULL, f);
    var b := new UniqueVkHandle(h2, owner, NULL, f);
    a.MoveAssign(b, log);
    b.Destroy(log);
    a.Destroy(log);
    calls := log.calls;
  }

  /** An instance with a destroy function calls it even when its handle is null. */
  method InstanceDestroysNullHandle(f: nat) returns (calls: seq<Call>)
    requires f != NULL
    ensures calls == [Call(f, NULL, NULL, NULL)]
  {
    var log := new DestroyLog();
    var i := new UniqueVkInstance(NULL, NULL, f);
    i.Destroy(log);
    calls := log.calls;
  }

  /**
   * Move assignment between two instances swaps their handles, so each
   * handle is still destroyed once, the target's old one by the source.
   */
  method InstanceMoveAssignSwaps(h1: nat, h2: nat, f: nat) returns (calls: seq<Call>)
    requires f != NULL
    ensures calls == [Call(f, NULL, h1, NULL), Call(f, NULL, h2, NULL)]
  {
    var log := new DestroyLog();
    var a := new UniqueVkInstance(h1, NULL, f);
    var b := new UniqueVkInstance(h2, NULL, f);
    a.MoveAssign(b);
    b.Destroy(log);
    a.Destroy(log);
    calls := log.calls;
  }
}
