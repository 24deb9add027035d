/**
 * Signals and slots (include/khepri/utility/signal.hpp): a signal keeps its
 * connections in order, an emission invokes every connected slot once in
 * that order and drops the disconnected connections, and connection
 * handles observe and cut a connection. Slots are identified by a number;
 * an emission reports the slots it invoked, in order. What a slot does
 * that the signal can see is the set of connections it disconnects when
 * invoked, given as a map from slot to that set.
 */
module Signals {
  import opened Errors

  /** The shared state of one signal-slot connection (`detail::ConnectionImpl`). */
  class ConnectionImpl {
    const slot: nat
    var connected: bool

    constructor (slot: nat)
      ensures this.slot == slot && connected
    {
      this.slot := slot;
      connected := true;
    }

    /** `invoke_slot`: invokes the slot only while connected, and says whether it did. */
    method InvokeSlot() returns (invoked: bool)
      ensures invoked == connected
    {
      invoked := connected;
    }
  }

  /** The connections of `cs` that are still connected, in their order. */
  function Live(cs: seq<ConnectionImpl>): (r: seq<ConnectionImpl>)
    reads set c | c in cs
    ensures |r| <= |cs|
  {
    if cs == [] then []
    else Live(cs[..|cs| - 1]) + (if cs[|cs| - 1].connected then [cs[|cs| - 1]] else [])
  }

  /** The slots of the connections `cs`, in order. */
  function Slots(cs: seq<ConnectionImpl>): (r: seq<nat>)
    ensures |r| == |cs|
    ensures forall i :: 0 <= i < |cs| ==> r[i] == cs[i].slot
  {
    if cs == [] then [] else Slots(cs[..|cs| - 1]) + [cs[|cs| - 1].slot]
  }

  /** The connections each slot disconnects when it is invoked. */
  type Cuts = map<nat, set<ConnectionImpl>>

  function CutBy(cuts: Cuts, slot: nat): set<ConnectionImpl>
  {
    if slot in cuts then cuts[slot] else {}
  }

  /** Every connection an emission over `cs` can observe or disconnect. */
  function Scope(cs: seq<ConnectionImpl>, cuts: Cuts): set<ConnectionImpl>
  {
    (set c | c in cs) + (set slot, c | slot in cuts && c in cuts[slot] :: c)
  }

  /** The connections of `s` that are connected now. */
  function ConnectedIn(s: set<ConnectionImpl>): set<ConnectionImpl>
    reads s
  {
    set c | c in s && c.connected
  }

  /**
   * The outcome of an emission: the connections kept, the slots invoked in
   * order, and the connections still connected afterwards.
   */
  datatype Emission = Emission(kept: seq<ConnectionImpl>, invoked: seq<nat>, live: set<ConnectionImpl>)

  /**
   * `remove_if` over `cs` with `invoke_slot` as the test, starting from the
   * connected set `live`: each connection is tested when reached, so one
   * disconnected by an earlier slot of the same emission is skipped and
   * dropped, while one whose own slot disconnects it has already passed
   * the test and is kept.
   */
  function Emitted(cs: seq<ConnectionImpl>, live: set<ConnectionImpl>, cuts: Cuts): (r: Emission)
    ensures r.live <= live
    ensures |r.kept| == |r.invoked| <= |cs|
    ensures forall k :: 0 <= k < |r.kept| ==> r.kept[k] in cs && r.invoked[k] == r.kept[k].slot
  {
    if cs == [] then Emission([], [], live)
    else
      var e := Emitted(cs[..|cs| - 1], live, cuts);
      var c := cs[|cs| - 1];
      if c in e.live then Emission(e.kept + [c], e.invoked + [c.slot], e.live - CutBy(cuts, c.slot))
      else e
  }

  /**
   * The state of an emission over `cs` after the first `i` connections were
   * reached: what was kept and invoked so far, and which connections of the
   * scope are still connected.
   */
  ghost predicate Reached(cs: seq<ConnectionImpl>, i: nat, live0: set<ConnectionImpl>, cuts: Cuts,
                          scope: set<ConnectionImpl>, kept: seq<ConnectionImpl>, invoked: seq<nat>)
    reads scope
  {
    i <= |cs| &&
    var e := Emitted(cs[..i], live0, cuts);
    kept == e.kept && invoked == e.invoked && forall c :: c in scope ==> (c.connected <==> c in e.live)
  }

  /** One pass of the emission loop: tests connection `i`, invokes its slot if connected and applies its cuts. */
  method EmitOne(cs: seq<ConnectionImpl>, i: nat, ghost live0: set<ConnectionImpl>, cuts: Cuts,
                 ghost scope: set<ConnectionImpl>, kept0: seq<ConnectionImpl>, invoked0: seq<nat>)
    returns (kept: seq<ConnectionImpl>, invoked: seq<nat>)
    requires i < |cs| && scope == Scope(cs, cuts)
    requires Reached(cs, i, live0, cuts, scope, kept0, invoked0)
    modifies scope
    ensures Reached(cs, i + 1, live0, cuts, scope, kept, invoked)
  {
    assert cs[..i + 1][..i] == cs[..i];
    var c := cs[i];
    kept, invoked := kept0, invoked0;
    var ok := c.InvokeSlot();
    if ok {
      kept := kept + [c];
      invoked := invoked + [c.slot];
      var cut := CutBy(cuts, c.slot);
      assert cut <= scope;
      forall d | d in cut {
        d.connected := false;
      }
    }
  }

  class Signal {
    var connections: seq<ConnectionImpl>

    constructor ()
      ensures connections == []
    {
      connections := [];
    }

    /** `connect`: appends a new connected connection for `slot` and returns a handle on it. */
    method Connect(slot: nat) returns (conn: Connection)
      modifies this
      ensures fresh(conn) && conn.impl != null && fresh(conn.impl)
      ensures conn.impl.slot == slot && conn.impl.connected
      ensures connections == old(connections) + [conn.impl]
    {
      var impl := new ConnectionImpl(slot);
      connections := connections + [impl];
      conn := new Connection.Of(impl);
    }

    /**
     * `operator()`: reaches every connection once, in order, invokes its
     * slot if it is connected at that moment, and keeps exactly the
     * connections whose slot was invoked, in the same order. Without
     * disconnections during the emission these are the connections that
     * were connected when it began.
     */
    method Emit(cuts: Cuts) returns (invoked: seq<nat>)
      modifies this, Scope(connections, cuts)
      ensures var e := Emitted(old(connections), old(ConnectedIn(Scope(connections, cuts))), cuts);
        connections == e.kept && invoked == e.invoked &&
        forall c :: c in Scope(old(connections), cuts) ==> (c.connected <==> c in e.live)
      ensures cuts == map[] ==> connections == old(Live(connections)) && invoked == Slots(connections)
    {
      var cs := connections;
      ghost var scope := Scope(cs, cuts);
      ghost var live0 := ConnectedIn(scope);
      EmittedWithoutCuts(cs, live0);
      var kept: seq<ConnectionImpl> := [];
      invoked := [];
      for i := 0 to |cs|
        invariant Reached(cs, i, live0, cuts, scope, kept, invoked)
      {
        kept, invoked := EmitOne(cs, i, live0, cuts, scope, kept, invoked);
      }
      assert cs[..|cs|] == cs;
      connections := kept;
    }

    /**
     * The destructor: the signal lets go of its connections, so every handle
     * on one of them expires and from then on reports no connection; the
     * expiry is modelled as cutting each connection.
     */
    method Destroy()
      modifies this, set c | c in connections
      ensures connections == []
      ensures forall c :: c in old(connections) ==> !c.connected
    {
      var cs := connections;
      for i := 0 to |cs|
        invariant forall k :: 0 <= k < i ==> !cs[k].connected
      {
        cs[i].connected := false;
      }
      connections := [];
    }
  }

  /**
   * `Connection`: a handle on a connection, or on none. The handle's weak
   * reference is modelled as a plain reference.
   */
  class Connection {
    var impl: ConnectionImpl?

    /** The default handle: not connected. */
    constructor ()
      ensures impl == null
    {
      impl := null;
    }

    constructor Of(impl: ConnectionImpl?)
      ensures this.impl == impl
    {
      this.impl := impl;
    }

    /** `connected`: whether the handle refers to a connection that is still connected. */
    method Connected() returns (r: bool)
      ensures r <==> impl != null && impl.connected
    {
      r := impl != null && impl.connected;
    }

    /** `disconnect`: cuts the connection and lets go of it; a no-op on an empty handle. */
    method Disconnect()
      modifies this, impl
      ensures impl == null
      ensures old(impl) != null ==> !old(impl).connected
    {
      if impl != null {
        impl.connected := false;
        impl := null;
      }
    }
  }

  /** The value an assignment operator hands back. */
  datatype Returned = NoValue | SelfReference

  /**
   * `ScopedConnection`: a handle that cuts its connection when it goes out
   * of scope (`Destroy`).
   */
  class ScopedConnection {
    var impl: ConnectionImpl?

    constructor ()
      ensures impl == null
    {
      impl := null;
    }

    /** Construction from a connection handle: refers to the same connection. */
    constructor FromConnection(conn: Connection)
      ensures impl == conn.impl
    {
      impl := conn.impl;
    }

    /** Move construction from a handle: takes its connection and leaves it empty. */
    constructor MoveFrom(conn: Connection)
      modifies conn
      ensures impl == old(conn.impl) && conn.impl == null
    {
      impl := conn.impl;
      conn.impl := null;
    }

    /** The destructor: cuts the connection, if any. */
    method Destroy()
      modifies this, impl
      ensures impl == null
      ensures old(impl) != null ==> !old(impl).connected
    {
      if impl != null {
        impl.connected := false;
        impl := null;
      }
    }

    /**
     * Copy assignment from a handle as written: cuts the current connection,
     * refers to the handle's connection, and then runs off the end of the
     * function without returning the reference it promises.
     */
    method AssignAsWritten(conn: Connection) returns (r: Returned)
      modifies this, impl
      ensures impl == conn.impl
      ensures old(impl) != null ==> !old(impl).connected
      ensures r == NoValue
    {
      Destroy();
      impl := conn.impl;
      r := NoValue;
    }

    /** Copy assignment from a handle, returning the reference to itself. */
    method Assign(conn: Connection) returns (r: Returned)
      modifies this, impl
      ensures impl == conn.impl
      ensures old(impl) != null ==> !old(impl).connected
      ensures r == SelfReference
    {
      var _ := AssignAsWritten(conn);
      r := SelfReference;
    }

    /**
     * Move assignment from a handle as written: cuts the current connection
     * (even when it is the handle's own), takes the handle's and leaves it
     * empty, and returns nothing.
     */
    method MoveAssignAsWritten(conn: Connection) returns (r: Returned)
      modifies this, impl, conn
      ensures impl == old(conn.impl) && conn.impl == null
      ensures old(impl) != null ==> !old(impl).connected
      ensures r == NoValue
    {
      Destroy();
      impl := conn.impl;
      conn.impl := null;
      r := NoValue;
    }

    /** Move assignment from a handle, returning the reference to itself. */
    method MoveAssign(conn: Connection) returns (r: Returned)
      modifies this, impl, conn
      ensures impl == old(conn.impl) && conn.impl == null
      ensures old(impl) != null ==> !old(impl).connected
      ensures r == SelfReference
    {
      var _ := MoveAssignAsWritten(conn);
      r := SelfReference;
    }

    /**
     * Move assignment from a scoped handle as written: cuts the current
     * connection, takes the other handle's and leaves that one empty; a
     * handle moved into itself ends up empty with its connection cut. It
     * returns nothing.
     */
    method MoveAssignScopedAsWritten(conn: ScopedConnection) returns (r: Returned)
      modifies this, impl, conn
      ensures conn != this ==> impl == old(conn.impl)
      ensures conn == this ==> impl == null
      ensures conn.impl == null
      ensures old(impl) != null ==> !old(impl).connected
      ensures r == NoValue
    {
      Destroy();
      impl := conn.impl;
      conn.impl := null;
      r := NoValue;
    }

    /** Move assignment from a scoped handle, returning the reference to itself. */
    method MoveAssignScoped(conn: ScopedConnection) returns (r: Returned)
      modifies this, impl, conn
      ensures conn != this ==> impl == old(conn.impl)
      ensures conn == this ==> impl == null
      ensures conn.impl == null
      ensures old(impl) != null ==> !old(impl).connected
      ensures r == SelfReference
    {
      var _ := MoveAssignScopedAsWritten(conn);
      r := SelfReference;
    }

    /** `release`: hands the connection over to a plain handle, so it is no longer cut on destruction. */
    method Release() returns (conn: Connection)
      modifies this
      ensures fresh(conn) && conn.impl == old(impl) && impl == null
    {
      conn := new Connection.Of(impl);
      impl := null;
    }
  }

  // ----- properties

  /** Appending a connection appends it to the live ones exactly when it is connected. */
  lemma {:induction false} LiveAppend(cs: seq<ConnectionImpl>, c: ConnectionImpl)
    ensures Live(cs + [c]) == Live(cs) + (if c.connected then [c] else [])
  {
    assert (cs + [c])[..|cs|] == cs;
  }

  /** The live connections are the connected ones among the connections. */
  lemma {:induction false} LiveMembers(cs: seq<ConnectionImpl>)
    ensures forall i :: 0 <= i < |Live(cs)| ==> Live(cs)[i] in cs && Live(cs)[i].connected
    ensures forall i :: 0 <= i < |cs| && cs[i].connected ==> cs[i] in Live(cs)
  {
    if cs != [] {
      var init, last := cs[..|cs| - 1], cs[|cs| - 1];
      assert cs == init + [last];
      LiveMembers(init);
      LiveAppend(init, last);
    }
  }

  /** A connection cut before an emission is not invoked by it and does not survive it. */
  lemma {:induction false} CutNotInvoked(cs: seq<ConnectionImpl>, k: nat)
    requires k < |cs| && !cs[k].connected
    ensures cs[k] !in Live(cs)
  {
    LiveMembers(cs);
  }

  /** A second emission with no disconnection in between keeps every connection the first kept. */
  lemma {:induction false} LiveIdempotent(cs: seq<ConnectionImpl>)
    ensures Live(Live(cs)) == Live(cs)
  {
    if cs != [] {
      var init, last := cs[..|cs| - 1], cs[|cs| - 1];
      assert cs == init + [last];
      LiveAppend(init, last);
      LiveIdempotent(init);
      if last.connected {
        LiveAppend(Live(init), last);
        assert Live(Live(cs)) == Live(Live(init) + [last]);
      } else {
        assert Live(cs) == Live(init);
      }
    }
  }

  /** The live connections keep their relative order: they are a subsequence of the connections. */
  lemma {:induction false} LiveIsSubsequence(cs: seq<ConnectionImpl>, i: nat, j: nat)
    requires i < j < |Live(cs)|
    ensures exists p, q :: 0 <= p < q < |cs| && cs[p] == Live(cs)[i] && cs[q] == Live(cs)[j]
  {
    var init, last := cs[..|cs| - 1], cs[|cs| - 1];
    assert cs == init + [last];
    LiveAppend(init, last);
    if j < |Live(init)| {
      LiveIsSubsequence(init, i, j);
      var p, q :| 0 <= p < q < |init| && init[p] == Live(init)[i] && init[q] == Live(init)[j];
      assert Live(cs)[i] == Live(init)[i] && Live(cs)[j] == Live(init)[j];
      assert cs[p] == init[p] && cs[q] == init[q];
    } else {
      LiveMembers(init);
      assert Live(cs)[i] == Live(init)[i] && Live(init)[i] in init;
      var p :| 0 <= p < |init| && init[p] == Live(init)[i];
      assert cs[p] == init[p] && cs[|cs| - 1] == Live(cs)[j];
    }
  }

  /** With no slot disconnecting anything, an emission keeps and invokes exactly the live connections. */
  lemma {:induction false} EmittedWithoutCuts(cs: seq<ConnectionImpl>, live: set<ConnectionImpl>)
    requires forall c :: c in cs ==> (c in live <==> c.connected)
    ensures Emitted(cs, live, map[]).kept == Live(cs)
    ensures Emitted(cs, live, map[]).invoked == Slots(Live(cs))
    ensures Emitted(cs, live, map[]).live == live
  {
    if cs != [] {
      var init, last := cs[..|cs| - 1], cs[|cs| - 1];
      EmittedWithoutCuts(init, live);
      if last.connected {
        var l := Live(init);
        assert (l + [last])[..|l|] == l;
      }
    }
  }

  /** Disconnections during an emission only ever shrink the connected set. */
  lemma {:induction false} EmittedLiveShrinks(cs: seq<ConnectionImpl>, live: set<ConnectionImpl>, cuts: Cuts, n: nat, m: nat)
    requires n <= m <= |cs|
    ensures Emitted(cs[..m], live, cuts).live <= Emitted(cs[..n], live, cuts).live
    decreases m
  {
    if n < m {
      EmittedLiveShrinks(cs, live, cuts, n, m - 1);
      assert cs[..m][..m - 1] == cs[..m - 1];
    }
  }

  /**
   * A connection disconnected by a slot invoked earlier in the same emission
   * is skipped when reached: its slot is not invoked and it is not kept.
   */
  lemma {:induction false} CutEarlierSkipped(cs: seq<ConnectionImpl>, live: set<ConnectionImpl>, cuts: Cuts, i: nat, j: nat)
    requires i < j < |cs|
    requires cs[i] in Emitted(cs[..i], live, cuts).live
    requires cs[j] in CutBy(cuts, cs[i].slot)
    ensures Emitted(cs[..j + 1], live, cuts) == Emitted(cs[..j], live, cuts)
  {
    assert cs[..i + 1][..i] == cs[..i];
    EmittedLiveShrinks(cs, live, cuts, i + 1, j);
    assert cs[..j + 1][..j] == cs[..j];
  }

  /**
   * A connection whose own slot disconnects it is still kept by that
   * emission, since it passed the test before its slot ran; it is dropped
   * by the next one.
   */
  lemma {:induction false} SelfCutKeptOnce(cs: seq<ConnectionImpl>, live: set<ConnectionImpl>, cuts: Cuts, j: nat)
    requires j < |cs|
    requires cs[j] in Emitted(cs[..j], live, cuts).live
    requires cs[j] in CutBy(cuts, cs[j].slot)
    ensures Emitted(cs[..j + 1], live, cuts).kept == Emitted(cs[..j], live, cuts).kept + [cs[j]]
    ensures cs[j] !in Emitted(cs[..j + 1], live, cuts).live
  {
    assert cs[..j + 1][..j] == cs[..j];
  }

  /** None of the three assignments as written returns the reference it promises. */
  method AssignAsWrittenReturnsNothing() returns (copied: Returned, moved: Returned, movedScoped: Returned)
    ensures copied != SelfReference && moved != SelfReference && movedScoped != SelfReference
  {
    var scoped := new ScopedConnection();
    var other := new ScopedConnection();
    var conn := new Connection();
    copied := scoped.AssignAsWritten(conn);
    moved := scoped.MoveAssignAsWritten(conn);
    movedScoped := scoped.MoveAssignScopedAsWritten(other);
  }

  /** A handle on a connection of a destroyed signal no longer reports it connected. */
  method HandleExpiresWithSignal() returns (before: bool, after: bool)
    ensures before && !after
  {
    var signal := new Signal();
    var conn := signal.Connect(7);
    before := conn.Connected();
    signal.Destroy();
    after := conn.Connected();
  }
}
