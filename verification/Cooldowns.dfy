/**
 Cooldowns that keep calls about the same contact apart. The clock is read anew
 for every check and every extension; it never runs backwards.
 */
module Cooldowns {
  import opened Basics
  import opened Trackfiles

  // ID -> the time at which its cooldown expires
  type Expiries = map<ID, Time>

  predicate OnCooldown(m: Expiries, id: ID, now: Time) {
    id in m && now < m[id]
  }

  class Clock {
    var now: Time

    // Any time from the last reading on.
    method Read() returns (t: Time)
      modifies this
      ensures old(now) <= t == now
    {
      t :| t >= now;
      now := t;
    }
  }

  class CooldownTracker {
    const cooldown: Time
    var cooldowns: Expiries

    constructor (cooldown: Time)
      ensures this.cooldown == cooldown && cooldowns == map[]
    {
      this.cooldown, cooldowns := cooldown, map[];
    }

    method ExtendCooldown(id: ID, clock: Clock) returns (ghost at: Time)
      modifies this, clock
      ensures old(clock.now) <= at == clock.now
      ensures cooldowns == old(cooldowns)[id := at + cooldown]
    {
      var t := clock.Read();
      at := t;
      cooldowns := cooldowns[id := t + cooldown];
    }

    method IsOnCooldown(id: ID, clock: Clock) returns (on: bool)
      modifies clock
      ensures old(clock.now) <= clock.now
      ensures on == OnCooldown(cooldowns, id, clock.now)
    {
      if id !in cooldowns {
        return false;
      }
      var t := clock.Read();
      on := t < cooldowns[id];
    }

    method Remove(id: ID)
      modifies this
      ensures cooldowns == old(cooldowns) - {id}
    {
      cooldowns := cooldowns - {id};
    }

    method Reset()
      modifies this
      ensures cooldowns == map[]
    {
      cooldowns := map[];
    }
  }

  // ---- Calls and their effect ----------------------------------------------------------

  // A call about some contacts: one of them was off cooldown when checked, the
  // call went out, and then every cooldown was extended, in order.
  datatype Op =
    | Call(ids: seq<ID>, checked: Time, published: Time, extended: seq<Time>)
    | Forget(id: ID)
    | ForgetAll

  function Extend(m: Expiries, ids: seq<ID>, times: seq<Time>, cooldown: Time): (r: Expiries)
    requires |ids| == |times|
    ensures forall id :: id in r <==> id in m || id in ids
  {
    if ids == [] then m
    else
      var n := |ids| - 1;
      assert ids == ids[..n] + [ids[n]];
      Extend(m, ids[..n], times[..n], cooldown)[ids[n] := times[n] + cooldown]
  }

  ghost predicate Allowed(m: Expiries, op: Op) {
    match op
    case Call(ids, checked, published, extended) =>
      && |extended| == |ids| && checked <= published
      && (exists id :: id in ids && !OnCooldown(m, id, checked))
      && forall k :: 0 <= k < |extended| ==> published <= extended[k]
    case _ => true
  }

  function After(m: Expiries, op: Op, cooldown: Time): Expiries
    requires op.Call? ==> |op.extended| == |op.ids|
  {
    match op
    case Call(ids, _, _, extended) => Extend(m, ids, extended, cooldown)
    case Forget(id) => m - {id}
    case ForgetAll => map[]
  }

  // The times an operation spans; the clock orders them across operations.
  predicate Within(op: Op, from: Time, until: Time) {
    op.Call? ==>
      from <= op.checked <= op.published <= until && forall k :: 0 <= k < |op.extended| ==> op.extended[k] <= until
  }

  ghost predicate Run(ms: seq<Expiries>, ops: seq<Op>, clock: seq<Time>, cooldown: Time) {
    && |ms| == |clock| == |ops| + 1
    && forall i :: 0 <= i < |ops| ==>
         && Allowed(ms[i], ops[i]) && ms[i + 1] == After(ms[i], ops[i], cooldown)
         && clock[i] <= clock[i + 1] && Within(ops[i], clock[i], clock[i + 1])
  }

  predicate Forgets(op: Op, id: ID) {
    op.ForgetAll? || (op.Forget? && op.id == id)
  }

  lemma {:induction false} ExtendSets(m: Expiries, ids: seq<ID>, times: seq<Time>, cooldown: Time, floor: Time)
    requires |ids| == |times| && forall k :: 0 <= k < |times| ==> floor <= times[k]
    ensures forall id :: id in ids ==> Extend(m, ids, times, cooldown)[id] >= floor + cooldown
    ensures forall id :: id in m && id !in ids ==> Extend(m, ids, times, cooldown)[id] == m[id]
  {
    if ids != [] {
      var n := |ids| - 1;
      ExtendSets(m, ids[..n], times[..n], cooldown, floor);
      assert ids == ids[..n] + [ids[n]];
    }
  }

  lemma {:induction false} ClockIsMonotone(ms: seq<Expiries>, ops: seq<Op>, clock: seq<Time>, cooldown: Time, i: nat, j: nat)
    requires Run(ms, ops, clock, cooldown) && i <= j <= |ops|
    ensures clock[i] <= clock[j]
  {
    if i < j {
      ClockIsMonotone(ms, ops, clock, cooldown, i, j - 1);
    }
  }

  // What a call puts on cooldown stays there at least until the call's time
  // plus the cooldown, unless it is forgotten.
  lemma {:induction false} CooldownLasts(ms: seq<Expiries>, ops: seq<Op>, clock: seq<Time>, cooldown: Time, i: nat, j: nat, id: ID)
    requires Run(ms, ops, clock, cooldown) && i < j <= |ops|
    requires ops[i].Call? && id in ops[i].ids
    requires forall k :: i < k < j ==> !Forgets(ops[k], id)
    ensures id in ms[j] && ms[j][id] >= ops[i].published + cooldown
  {
    var op := ops[j - 1];
    assert Allowed(ms[j - 1], op) && ms[j] == After(ms[j - 1], op, cooldown);
    if j - 1 == i {
      ExtendSets(ms[i], op.ids, op.extended, cooldown, op.published);
    } else {
      CooldownLasts(ms, ops, clock, cooldown, i, j - 1, id);
      if op.Call? {
        ClockIsMonotone(ms, ops, clock, cooldown, i + 1, j - 1);
        assert Within(ops[i], clock[i], clock[i + 1]) && Within(op, clock[j - 1], clock[j]);
        ExtendSets(ms[j - 1], op.ids, op.extended, cooldown, op.published);
      }
    }
  }

  lemma {:induction false} ExtendedBy(m: Expiries, ids: seq<ID>, times: seq<Time>, cooldown: Time, id: ID)
    requires |ids| == |times| && id in Extend(m, ids, times, cooldown)
    ensures (id in m && Extend(m, ids, times, cooldown)[id] == m[id])
         || exists k :: 0 <= k < |ids| && ids[k] == id && Extend(m, ids, times, cooldown)[id] == times[k] + cooldown
  {
    if ids != [] {
      var n := |ids| - 1;
      if ids[n] != id {
        ExtendedBy(m, ids[..n], times[..n], cooldown, id);
      }
    }
  }

  // The call put the contact on a cooldown that lasts beyond t.
  ghost predicate Extends(op: Op, id: ID, t: Time, cooldown: Time) {
    op.Call? && exists k :: 0 <= k < |op.ids| && k < |op.extended| && op.ids[k] == id && t < op.extended[k] + cooldown
  }

  // Over any run from the start: who is on cooldown was in a call whose cooldown
  // is not over, and has not been forgotten since.
  lemma {:induction false} CooldownsEnd(ms: seq<Expiries>, ops: seq<Op>, clock: seq<Time>, cooldown: Time, j: nat, id: ID, t: Time)
    returns (i: nat)
    requires Run(ms, ops, clock, cooldown) && ms[0] == map[] && j <= |ops| && OnCooldown(ms[j], id, t)
    ensures i < j && Extends(ops[i], id, t, cooldown) && forall k :: i < k < j ==> !Forgets(ops[k], id)
  {
    var op := ops[j - 1];
    assert Allowed(ms[j - 1], op) && ms[j] == After(ms[j - 1], op, cooldown);
    if op.Call? {
      ExtendedBy(ms[j - 1], op.ids, op.extended, cooldown, id);
    }
    if Extends(op, id, t, cooldown) {
      i := j - 1;
    } else {
      i := CooldownsEnd(ms, ops, clock, cooldown, j - 1, id, t);
    }
  }

  // Over any run: a call whose contacts were all in an earlier call comes at
  // least the cooldown later, if none of them was forgotten in between.
  lemma CallsAreSpaced(ms: seq<Expiries>, ops: seq<Op>, clock: seq<Time>, cooldown: Time, i: nat, j: nat)
    requires Run(ms, ops, clock, cooldown) && i < j < |ops| && ops[i].Call? && ops[j].Call?
    requires forall id :: id in ops[j].ids ==> id in ops[i].ids
    requires forall k, id :: i < k < j && id in ops[j].ids ==> !Forgets(ops[k], id)
    ensures ops[j].checked >= ops[i].published + cooldown
  {
    assert Allowed(ms[j], ops[j]);
    var id :| id in ops[j].ids && !OnCooldown(ms[j], id, ops[j].checked);
    CooldownLasts(ms, ops, clock, cooldown, i, j, id);
  }
}
