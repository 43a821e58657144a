/**
  Component leases (src/component_state.hpp). A component's user count is the number of leases
  that hold it, whatever is moved where, and a lease that holds sees the component.
 */
module Leases {
  import opened Wrappers

  type ComponentId = nat

  class ComponentState {
    var component: Option<ComponentId>
    var isActive: bool
    var users: nat
    /** The leases that hold this component. */
    ghost var holders: set<ComponentLease>

    constructor (component: ComponentId)
      ensures Valid() && users == 0 && isActive && this.component == Some(component) && holders == {}
    {
      this.component, isActive, users, holders := Some(component), true, 0, {};
    }

    ghost predicate Valid()
      reads this, holders
    {
      && users == |holders|
      && forall l :: l in holders ==> l.state == this && l.component == component && component.Some?
    }

    /** deactivate: no new lease from here on, and if nobody holds one, the pointer goes. */
    method Deactivate() returns (cleared: bool)
      requires Valid()
      modifies this`isActive, this`component
      ensures Valid() && !isActive
      ensures cleared <==> holders == {}
      ensures cleared ==> component == None
      ensures !cleared ==> component == old(component)
    {
      isActive := false;
      cleared := users == 0;
      if cleared {
        assert holders == {};
        component := None;
      }
    }
  }

  class ComponentLease {
    var state: ComponentState?
    var component: Option<ComponentId>

    /** A lease holds a component exactly when the component counts it. */
    ghost predicate Valid()
      reads this, state
    {
      if state == null then component.None? else this in state.holders && component.Some?
    }

    ghost predicate Consistent()
      reads this, state, if state == null then {} else state.holders
    {
      Valid() && (state != null ==> state.Valid())
    }

    constructor (target: ComponentState?, admissionClosed: bool)
      requires target != null ==> target.Valid()
      modifies target
      ensures Consistent()
      ensures target != null ==> target.Valid()
      ensures state == if target != null && !admissionClosed && old(target.isActive) && old(target.component).Some?
                       then target else null
      ensures state != null ==> component == old(target.component) && target.holders == old(target.holders) + {this}
      ensures target != null && state == null ==> target.holders == old(target.holders)
      ensures target != null ==> target.component == old(target.component) && target.isActive == old(target.isActive)
    {
      state, component := null, None;
      new;
      if target == null || admissionClosed || !target.isActive || target.component.None? {
        return;
      }
      target.users := target.users + 1;
      target.holders := target.holders + {this};
      state := target;
      component := target.component;
    }

    /** The move constructor: the new lease holds what the other held, and the other nothing. */
    constructor Move(other: ComponentLease)
      requires other.Consistent()
      modifies other, other.state
      ensures Consistent() && other.Consistent()
      ensures state == old(other.state) && component == old(other.component)
      ensures other.state == null && other.component == None
      ensures state != null ==>
                && state.holders == old(other.state.holders) - {other} + {this}
                && state.users == old(other.state.users)
                && state.component == old(other.state.component) && state.isActive == old(other.state.isActive)
    {
      state, component := other.state, other.component;
      new;
      other.state, other.component := null, None;
      if state != null {
        state.holders := state.holders - {other} + {this};
      }
    }

    method Release()
      requires Consistent()
      modifies this, state
      ensures state == null && component == None && Consistent()
      ensures old(state) != null ==>
                && old(state).Valid()
                && old(state).holders == old(state.holders) - {this}
                && old(state).component == old(state.component) && old(state).isActive == old(state.isActive)
    {
      if state == null {
        return;
      }
      assert this in state.holders;
      state.users := state.users - 1;
      state.holders := state.holders - {this};
      state := null;
      component := None;
    }

    /** Move assignment: what this lease held is released, what the other held is taken over. */
    method Assign(other: ComponentLease)
      requires Consistent() && other.Consistent()
      modifies this, state, other, other.state
      ensures Consistent() && other.Consistent()
      ensures other == this ==> state == old(state) && component == old(component)
      ensures other == this && state != null ==> state.holders == old(state.holders)
      ensures other != this ==>
                && state == old(other.state) && component == old(other.component)
                && other.state == null && other.component == None
      ensures other != this && old(other.state) != null ==>
                state.holders == old(other.state.holders) - {other, this} + {this}
      ensures other != this && old(state) != null ==> old(state).Valid()
      ensures other != this && old(state) != null && old(state) != old(other.state) ==>
                old(state).holders == old(state.holders) - {this}
    {
      if this != other {
        Release();
        TakeOver(other);
      }
    }

    /** An empty lease takes over what another holds. */
    method TakeOver(other: ComponentLease)
      requires this != other && state == null && component == None && other.Consistent()
      modifies this, other, other.state
      ensures Consistent() && other.Consistent()
      ensures state == old(other.state) && component == old(other.component)
      ensures other.state == null && other.component == None
      ensures state != null ==> state.holders == old(other.state.holders) - {other} + {this}
    {
      state, component := other.state, other.component;
      other.state, other.component := null, None;
      if state != null {
        HoldersSwap(state.holders, other, this);
        state.holders := state.holders - {other} + {this};
      }
    }
  }

  lemma HoldersSwap(holders: set<ComponentLease>, a: ComponentLease, b: ComponentLease)
    requires a in holders && b !in holders
    ensures |holders - {a} + {b}| == |holders|
  {
  }
}
