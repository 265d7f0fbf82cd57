/** The lifecycle seeder: one process working through the slots, each step a step of the token pool's world. */
module Seeder {
  import opened Common
  import opened TokenPool

  /** The slots in the order they are seeded. */
  const PLAN: seq<Slot> :=
    [PendingVouch, Cancelled, Funding, Executing, Operational, Closed, ClosedTerm, Failed, Compensating]

  const VALIDATORS: nat := 3

  /** Slots whose asset is finalized with a pooled token. */
  predicate Finalizes(slot: Slot) {
    slot.Executing? || slot.Operational? || slot.Compensating? || slot.Closed? || slot.ClosedTerm?
  }

  predicate Complete(s: SimState) {
    s.timeWarped && |s.validatorPools| >= VALIDATORS && forall slot :: slot in s.lifecycle
  }

  /** How many tokens the slots still need. */
  function Needs(s: SimState, slots: seq<Slot>): nat {
    if slots == [] then 0
    else
      var slot := slots[|slots| - 1];
      Needs(s, slots[..|slots| - 1]) + if Finalizes(slot) && slot !in s.lifecycle then 1 else 0
  }

  /** `t` is `s` with these slots recorded too, one token further for each that needed one. */
  ghost predicate Seeded(s: SimState, t: SimState, slots: seq<Slot>) {
    && Extends(s, t)
    && (forall slot :: slot in t.lifecycle <==> slot in s.lifecycle || slot in slots)
    && t == s.(used := s.used + Needs(s, slots), lifecycle := t.lifecycle)
  }

  lemma SeededOneMore(s: SimState, t: SimState, u: SimState, slots: seq<Slot>, slot: Slot)
    requires Seeded(s, t, slots) && slot !in slots
    requires slot in t.lifecycle ==> u == t
    requires slot !in t.lifecycle ==>
               && slot in u.lifecycle
               && u == t.(used := t.used + if Finalizes(slot) then 1 else 0,
                              lifecycle := t.lifecycle[slot := u.lifecycle[slot]])
    ensures Seeded(s, u, slots + [slot])
  {
    NeedsOneMore(s, slots, slot);
    hide Finalizes, Needs;
    assert slot in t.lifecycle <==> slot in s.lifecycle;
  }

  /** The newly recorded slots hold their tokens in the order of the list, the others hold none. */
  ghost predicate InOrder(s: SimState, t: SimState, slots: seq<Slot>) {
    && s.used + Needs(s, slots) <= |s.entityTokens|
    && forall i :: 0 <= i < |slots| && slots[i] !in s.lifecycle ==>
         slots[i] in t.lifecycle && t.lifecycle[slots[i]].token == TokenFor(s, slots, i)
  }

  function TokenFor(s: SimState, slots: seq<Slot>, i: nat): Option<EntityToken>
    requires i < |slots|
  {
    var place := s.used + Needs(s, slots[..i]);
    if Finalizes(slots[i]) && place < |s.entityTokens| then Some(s.entityTokens[place]) else None
  }

  lemma InOrderOneMore(s: SimState, t: SimState, u: SimState, slots: seq<Slot>, slot: Slot)
    requires t.entityTokens == s.entityTokens && t.used == s.used + Needs(s, slots) && InOrder(s, t, slots)
    requires slot !in slots && (slot in t.lifecycle <==> slot in s.lifecycle)
    requires slot in t.lifecycle ==> u == t
    requires slot !in t.lifecycle ==>
               && t.used + (if Finalizes(slot) then 1 else 0) <= |t.entityTokens|
               && slot in u.lifecycle && u.lifecycle == t.lifecycle[slot := u.lifecycle[slot]]
               && u.lifecycle[slot].token == if Finalizes(slot) then Some(t.entityTokens[t.used]) else None
    ensures InOrder(s, u, slots + [slot])
  {
    NeedsOneMore(s, slots, slot);
    hide Finalizes, Needs;
    var all := slots + [slot];
    assert all[..|slots|] == slots;
    forall i | 0 <= i < |slots| && slots[i] !in s.lifecycle
      ensures slots[i] in u.lifecycle && u.lifecycle[slots[i]].token == TokenFor(s, all, i)
    {
      assert all[..i] == slots[..i] && slots[i] in slots;
    }
  }

  lemma PlanNeeds(s: SimState, i: nat)
    requires i < 9
    ensures Needs(s, PLAN[..i + 1])
         == Needs(s, PLAN[..i]) + if Finalizes(PLAN[i]) && PLAN[i] !in s.lifecycle then 1 else 0
  {
    NeedsOneMore(s, PLAN[..i], PLAN[i]);
    assert PLAN[..i + 1] == PLAN[..i] + [PLAN[i]];
  }

  function Missing(s: SimState, slot: Slot): nat {
    if slot in s.lifecycle then 0 else 1
  }

  /** Each of the five finalized slots that is missing needs a token, and no other slot does. */
  lemma FiveNeedTokens(s: SimState)
    ensures Needs(s, PLAN) == Missing(s, Executing) + Missing(s, Operational) + Missing(s, Closed)
                              + Missing(s, ClosedTerm) + Missing(s, Compensating)
    ensures Needs(s, PLAN[..3]) == 0 && Needs(s, PLAN[..4]) == Missing(s, Executing)
    ensures Needs(s, PLAN[..5]) == Needs(s, PLAN[..4]) + Missing(s, Operational)
    ensures Needs(s, PLAN[..6]) == Needs(s, PLAN[..5]) + Missing(s, Closed)
    ensures Needs(s, PLAN[..8]) == Needs(s, PLAN[..6]) + Missing(s, ClosedTerm)
  {
    hide Needs;
    NoNeeds(s);
    PlanNeeds(s, 0);
    PlanNeeds(s, 1);
    PlanNeeds(s, 2);
    PlanNeeds(s, 3);
    PlanNeeds(s, 4);
    PlanNeeds(s, 5);
    PlanNeeds(s, 6);
    PlanNeeds(s, 7);
    PlanNeeds(s, 8);
    assert PLAN[..9] == PLAN && PLAN[..0] == [];
  }

  lemma NoNeeds(s: SimState)
    ensures Needs(s, []) == 0
  {
  }

  lemma TokenAt(s: SimState, t: SimState, slots: seq<Slot>, i: nat)
    requires InOrder(s, t, slots) && i < |slots| && slots[i] !in s.lifecycle
    ensures slots[i] in t.lifecycle
    ensures var place := s.used + Needs(s, slots[..i]);
            if Finalizes(slots[i]) then
              place < |s.entityTokens| && t.lifecycle[slots[i]].token == Some(s.entityTokens[place])
            else t.lifecycle[slots[i]].token == None
  {
    hide Needs, Finalizes;
    NeedsOneMore(s, slots[..i], slots[i]);
    assert slots[..i + 1] == slots[..i] + [slots[i]];
    NeedsGrow(s, slots, i + 1);
  }

  lemma {:induction false} NeedsGrow(s: SimState, slots: seq<Slot>, i: nat)
    requires i <= |slots|
    ensures Needs(s, slots[..i]) <= Needs(s, slots)
  {
    if i < |slots| {
      var n := |slots| - 1;
      NeedsGrow(s, slots[..n], i);
      assert slots[..n][..i] == slots[..i];
    } else {
      assert slots[..i] == slots;
    }
  }

  /** From a state without records the five finalized slots take the first five unused tokens in this order. */
  lemma TokensInPlanOrder(s: SimState, t: SimState)
    requires InOrder(s, t, PLAN) && s.lifecycle == map[]
    ensures s.used + 5 <= |s.entityTokens| && forall slot: Slot :: slot in t.lifecycle
    ensures t.lifecycle[Executing].token == Some(s.entityTokens[s.used])
    ensures t.lifecycle[Operational].token == Some(s.entityTokens[s.used + 1])
    ensures t.lifecycle[Closed].token == Some(s.entityTokens[s.used + 2])
    ensures t.lifecycle[ClosedTerm].token == Some(s.entityTokens[s.used + 3])
    ensures t.lifecycle[Compensating].token == Some(s.entityTokens[s.used + 4])
    ensures t.lifecycle[PendingVouch].token == t.lifecycle[Cancelled].token == None
    ensures t.lifecycle[Funding].token == t.lifecycle[Failed].token == None
  {
    FiveNeedTokens(s);
    OthersHoldNone(s, t);
    hide Needs, InOrder;
    forall slot: Slot ensures slot in t.lifecycle {
      PlanHasEverySlot(slot);
      var i :| 0 <= i < 9 && PLAN[i] == slot;
      TokenAt(s, t, PLAN, i);
    }
    TokenAt(s, t, PLAN, 3);
    TokenAt(s, t, PLAN, 4);
    TokenAt(s, t, PLAN, 5);
    TokenAt(s, t, PLAN, 6);
    TokenAt(s, t, PLAN, 8);
  }

  lemma OthersHoldNone(s: SimState, t: SimState)
    requires InOrder(s, t, PLAN) && s.lifecycle == map[]
    ensures forall slot <- {PendingVouch, Cancelled, Funding, Failed} ::
              slot in t.lifecycle && t.lifecycle[slot].token == None
  {
    hide Needs, InOrder;
    TokenAt(s, t, PLAN, 0);
    TokenAt(s, t, PLAN, 1);
    TokenAt(s, t, PLAN, 2);
    TokenAt(s, t, PLAN, 7);
  }

  lemma NeedsOneMore(s: SimState, slots: seq<Slot>, slot: Slot)
    ensures Needs(s, slots + [slot]) == Needs(s, slots) + if Finalizes(slot) && slot !in s.lifecycle then 1 else 0
  {
    assert (slots + [slot])[..|slots|] == slots;
  }

  /** The tokens of the slots so far and of one slot more follow each other in the pool. */
  lemma TokensFollow(s: SimState, t: SimState, u: SimState, slots: seq<Slot>)
    requires Seeded(s, t, slots) && t.used <= u.used <= |s.entityTokens|
    ensures s.used <= t.used && t.entityTokens == s.entityTokens
    ensures Tokens(s, u.used) == Tokens(s, t.used) + Tokens(t, u.used)
  {
  }

  lemma AllRecorded(s: SimState, t: SimState, slots: seq<Slot>)
    requires Seeded(s, t, slots)
    ensures t.entityTokens == s.entityTokens && t.used == s.used + Needs(s, slots)
    ensures forall slot :: slot in t.lifecycle <==> slot in s.lifecycle || slot in slots
  {
  }

  lemma PlanHasEverySlot(slot: Slot)
    ensures slot in PLAN
  {
    var place := match slot
      case PendingVouch => 0 case Cancelled => 1 case Funding => 2 case Executing => 3 case Operational => 4
      case Closed => 5 case ClosedTerm => 6 case Failed => 7 case Compensating => 8;
    assert PLAN[place] == slot;
  }

  lemma PlanNamesEachOnce(i: nat)
    requires i < |PLAN|
    ensures PLAN[i] !in PLAN[..i]
  {
  }

  /** The tokens from the cursor up to a later one. */
  function Tokens(s: SimState, stop: nat): seq<EntityToken>
    requires s.used <= stop <= |s.entityTokens|
  {
    s.entityTokens[s.used..stop]
  }

  /** The transactions between an asset's creation and its finalization, or its end if it is not finalized. */
  function CallsBefore(slot: Slot): nat {
    match slot
    case PendingVouch => 0
    case Cancelled => 1 // cancel
    case Funding => 1 // vouch
    case Failed => 2 // vouch, abort
    case _ => 2 // vouch, fund
  }

  /** The transactions after the finalization. */
  function CallsAfter(slot: Slot): nat {
    match slot
    case Operational => 4 // proof, approval, release, revenue
    case Closed => 4 // proof, approval, release, wind-down
    case ClosedTerm => 5 // proof, approval, release, revenue, close
    case Compensating => 1 // default
    case _ => 0
  }

  datatype ObjectType = AssetObject | EntityCapObject | AccumulatorObject | PoolObject

  /** What a transaction or a save answers; a successful transaction names the objects it created. */
  datatype Outcome = Fails(left: Left) | Succeeds(created: map<ObjectType, Text>)

  /** The object of a type that a transaction created; without one the step has failed. */
  function Created(o: Outcome, t: ObjectType): Option<Text> {
    if o.Succeeds? && t in o.created then Some(o.created[t]) else None
  }

  /**
   A slot's record names the objects that its own transactions created: the asset and the capability
   are of the first one, the accumulator of the finalizing one, the fourth.
   */
  predicate RecordFrom(outcomes: seq<Outcome>, slot: Slot, record: LifecycleAsset) {
    && |outcomes| > 0
    && Some(record.assetId) == Created(outcomes[0], AssetObject)
    && record.entityCapId.Some? && record.entityCapId == Created(outcomes[0], EntityCapObject)
    && if Finalizes(slot) then
         && |outcomes| > 3 && record.accumulatorId.Some?
         && record.accumulatorId == Created(outcomes[3], AccumulatorObject)
       else record.accumulatorId == None
  }

  /** How many transactions and saves it takes to seed a slot. */
  function Answers(slot: Slot): (n: nat)
    ensures n > if Finalizes(slot) then 2 else 1
  {
    match slot
    case PendingVouch => 2
    case Cancelled => 3
    case Funding => 3
    case Executing => 6
    case Operational => 10
    case Closed => 10
    case ClosedTerm => 11
    case Failed => 4
    case Compensating => 7
  }

  lemma NothingFromNothing(t: ObjectType)
    ensures Created(Fails(OldText), t) == None
  {
  }

  function AtLeast(k: nat, n: nat): nat {
    if n < k then k else n
  }

  function Drop(outcomes: seq<Outcome>, n: nat): seq<Outcome> {
    if n <= |outcomes| then outcomes[n..] else []
  }

  /** New pools are those that every other transaction created, saves between them. */
  predicate PoolsFrom(outcomes: seq<Outcome>, added: seq<Text>) {
    2 * |added| <= |outcomes| && forall i :: 0 <= i < |added| ==> Some(added[i]) == Created(outcomes[2 * i], PoolObject)
  }

  class Process {
    const start: World
    var world: World
    var trace: seq<Action>
    /** The answers to come; past the end everything fails. */
    var outcomes: seq<Outcome>

    constructor (w: World, outcomes: seq<Outcome>)
      ensures Valid() && world == w && trace == [] && this.outcomes == outcomes
    {
      start, world, trace := w, w, [];
      this.outcomes := outcomes;
    }

    /** The world is what the steps taken so far make of the one at the start. */
    predicate Valid()
      reads this
    {
      world == After(start, trace)
    }

    predicate Running()
      reads this
    {
      && Valid() && world.memory.Some? && world.hold.Nothing?
      && world.memory.value.used <= |world.memory.value.entityTokens|
    }

    method Do(a: Action)
      requires Valid()
      modifies this`world, this`trace
      ensures Valid() && world == Step(old(world), a) && trace == old(trace) + [a]
    {
      hide Step;
      world := Step(world, a);
      trace := trace + [a];
      assert trace[..|trace| - 1] == old(trace);
    }

    method Exec() returns (answer: Outcome)
      modifies this`outcomes
      ensures old(outcomes) == [] ==> answer == Fails(OldText) && outcomes == []
      ensures old(outcomes) != [] ==> answer == old(outcomes)[0] && outcomes == old(outcomes)[1..]
    {
      if outcomes == [] { return Fails(OldText); }
      answer := outcomes[0];
      outcomes := outcomes[1..];
    }

    /** Transactions of which only success counts; the first failure ends them. */
    method Calls(k: nat) returns (ok: bool)
      modifies this`outcomes
      ensures ok ==> k <= |old(outcomes)| && outcomes == old(outcomes)[k..]
    {
      for i := 0 to k
        invariant i <= |old(outcomes)| && outcomes == old(outcomes)[i..]
      {
        var answer := Exec();
        if answer.Fails? { return false; }
      }
      ok := true;
    }

    method SaveState() returns (ok: bool)
      requires Valid() && world.memory.Some?
      modifies this
      ensures Valid() && world.memory == old(world.memory) && world.handed == old(world.handed)
      ensures ok ==> world.disk == Intact(world.memory.value) && world.hold == Saved(old(world.hold))
      ensures ok ==> old(outcomes) != [] && outcomes == old(outcomes)[1..]
    {
      hide After;
      var answer := Exec();
      match answer {
        case Succeeds(_) => Do(Save); ok := true;
        case Fails(left) => Do(SaveFails(left)); ok := false;
      }
    }

    method TimeWarp() returns (ok: bool)
      requires Running()
      modifies this
      ensures Valid()
      ensures old(world.memory.value.timeWarped) ==> ok && world == old(world) && trace == old(trace)
      ensures ok ==>
                && Running() && world.handed == old(world.handed)
                && world.memory.value == old(world.memory.value).(timeWarped := true)
                && outcomes == (if old(world.memory.value.timeWarped) then old(outcomes) else Drop(old(outcomes), 4))
                && (trace != old(trace) ==> world.disk == Intact(world.memory.value))
    {
      hide After;
      if world.memory.value.timeWarped { return true; }
      ok := Calls(3);
      if !ok { return; }
      Do(Warp);
      ok := SaveState();
    }

    method RegisterValidators(k: nat) returns (ok: bool)
      requires Running()
      modifies this
      ensures Valid()
      ensures |old(world.memory.value.validatorPools)| >= k ==> ok && world == old(world) && trace == old(trace)
      ensures ok ==>
                && Running() && world.handed == old(world.handed)
                && old(world.memory.value.validatorPools) <= world.memory.value.validatorPools
                && |world.memory.value.validatorPools| == AtLeast(k, |old(world.memory.value.validatorPools)|)
                && world.memory.value == old(world.memory.value).(validatorPools := world.memory.value.validatorPools)
                && (trace != old(trace) ==> world.disk == Intact(world.memory.value))
                && var before := |old(world.memory.value.validatorPools)|;
                   PoolsFrom(old(outcomes), world.memory.value.validatorPools[before..])
    {
      hide After, Created;
      while |world.memory.value.validatorPools| < k
        invariant Running() && world.handed == old(world.handed)
        invariant old(world.memory.value.validatorPools) <= world.memory.value.validatorPools
        invariant world.memory.value == old(world.memory.value).(validatorPools := world.memory.value.validatorPools)
        invariant trace != old(trace) ==> world.disk == Intact(world.memory.value)
        invariant |old(world.memory.value.validatorPools)| >= k ==> world == old(world) && trace == old(trace)
        invariant |world.memory.value.validatorPools| <= k || world == old(world)
        invariant var added := world.memory.value.validatorPools[|old(world.memory.value.validatorPools)|..];
                  && PoolsFrom(old(outcomes), added)
                  && 2 * |added| <= |old(outcomes)| && outcomes == old(outcomes)[2 * |added|..]
        decreases k - |world.memory.value.validatorPools|
      {
        var answer := Exec();
        var pool := Created(answer, PoolObject);
        if pool.None? { return false; }
        Do(Register(pool.value));
        var saved := SaveState();
        if !saved { return false; }
      }
      ok := true;
    }

    /** `next_token`: taken and recorded on file before anyone sees it. */
    method NextToken() returns (token: Option<EntityToken>)
      requires Running()
      modifies this
      ensures Valid()
      ensures token.Some? ==>
                && old(world.memory.value.used) < |old(world.memory.value.entityTokens)|
                && token.value == old(world.memory.value.entityTokens)[old(world.memory.value.used)]
                && world.memory == Some(old(world.memory.value).(used := old(world.memory.value.used) + 1))
                && world.disk == Intact(world.memory.value) && world.hold == Recorded(token.value)
                && world.handed == old(world.handed)
                && old(outcomes) != [] && outcomes == old(outcomes)[1..]
    {
      hide After;
      if world.memory.value.used == |world.memory.value.entityTokens| { return None; }
      Do(Take);
      token := Some(world.hold.token);
      var saved := SaveState();
      if !saved { return None; }
    }

    /** The transactions that bring a new asset to its slot's state, with the token that is finalized with. */
    method Build(slot: Slot, token: Option<EntityToken>) returns (record: Option<LifecycleAsset>)
      requires Valid() && world.memory.Some?
      requires Finalizes(slot) <==> token.Some?
      requires world.hold == if token.Some? then Recorded(token.value) else Nothing
      modifies this
      ensures Valid()
      ensures record.Some? ==>
                && world == old(world).(hold := Nothing, handed := world.handed)
                && world.handed == old(world.handed) + (if token.Some? then [token.value] else [])
                && record.value.token == token && RecordFrom(old(outcomes), slot, record.value)
                && var k := if Finalizes(slot) then Answers(slot) - 2 else Answers(slot) - 1;
                   k <= |old(outcomes)| && outcomes == old(outcomes)[k..]
    {
      hide After, Created;
      var creation := Exec();
      var asset, cap := Created(creation, AssetObject), Created(creation, EntityCapObject);
      NothingFromNothing(AssetObject);
      if asset.None? || cap.None? { return None; }
      var ok := Calls(CallsBefore(slot));
      if !ok { return None; }
      var accumulator: Option<Text> := None;
      if token.Some? {
        Do(Finalize);
        var finalization := Exec();
        accumulator := Created(finalization, AccumulatorObject);
        NothingFromNothing(AccumulatorObject);
        if accumulator.None? { return None; }
        ok := Calls(CallsAfter(slot));
        if !ok { return None; }
      }
      record := Some(LifecycleAsset(asset.value, cap, accumulator, token));
    }

    /** One slot: skipped when recorded, otherwise built, with a token if it is finalized, recorded and saved. */
    method EnsureSlot(slot: Slot) returns (ok: bool)
      requires Running()
      modifies this
      ensures Valid()
      ensures slot in old(world.memory.value.lifecycle) ==> ok && world == old(world) && trace == old(trace)
      ensures ok && slot !in old(world.memory.value.lifecycle) ==>
                && Running()
                && var s := old(world.memory.value);
                   var n := if Finalizes(slot) then 1 else 0;
                   && s.used + n <= |s.entityTokens|
                   && slot in world.memory.value.lifecycle
                   && world.memory.value.lifecycle[slot].token
                      == (if Finalizes(slot) then Some(s.entityTokens[s.used]) else None)
                   && world.memory.value
                      == s.(used := s.used + n, lifecycle := s.lifecycle[slot := world.memory.value.lifecycle[slot]])
                   && world.disk == Intact(world.memory.value)
                   && world.handed == old(world.handed) + Tokens(s, s.used + n)
                   && n <= |old(outcomes)| && RecordFrom(old(outcomes)[n..], slot, world.memory.value.lifecycle[slot])
                   && Answers(slot) <= |old(outcomes)| && outcomes == old(outcomes)[Answers(slot)..]
    {
      hide After, RecordFrom, CallsBefore, CallsAfter, Answers, Tokens;
      FirstTokens(world.memory.value);
      if slot in world.memory.value.lifecycle { return true; }
      var token: Option<EntityToken> := None;
      if Finalizes(slot) {
        token := NextToken();
        if token.None? { return false; }
      }
      var record := Build(slot, token);
      if record.None? { return false; }
      Do(Record(slot, record.value));
      ok := SaveState();
    }

    /** The slots one after the other, in plan order; the first failure ends the run. */
    method SeedSlots() returns (ok: bool)
      requires Running()
      modifies this
      ensures Valid()
      ensures (forall slot :: slot in old(world.memory.value.lifecycle)) ==>
                ok && world == old(world) && trace == old(trace)
      ensures ok ==>
                && Running() && Seeded(old(world.memory.value), world.memory.value, PLAN)
                && InOrder(old(world.memory.value), world.memory.value, PLAN)
                && world.handed == old(world.handed) + Tokens(old(world.memory.value), world.memory.value.used)
                && (trace != old(trace) ==> world.disk == Intact(world.memory.value))
    {
      hide After, Needs, Seeded, Tokens, InOrder, RecordFrom, Answers;
      ghost var s := world.memory.value;
      NothingSeeded(s);
      for i := 0 to |PLAN|
        invariant Running() && Seeded(s, world.memory.value, PLAN[..i]) && InOrder(s, world.memory.value, PLAN[..i])
        invariant s.used <= world.memory.value.used <= |s.entityTokens|
        invariant world.handed == old(world.handed) + Tokens(s, world.memory.value.used)
        invariant trace != old(trace) ==> world.disk == Intact(world.memory.value)
        invariant (forall slot :: slot in s.lifecycle) ==> world == old(world) && trace == old(trace)
      {
        ghost var t := world.memory.value;
        PlanNamesEachOnce(i);
        AllRecorded(s, t, PLAN[..i]);
        ok := EnsureSlot(PLAN[i]);
        if !ok { return; }
        SeededOneMore(s, t, world.memory.value, PLAN[..i], PLAN[i]);
        InOrderOneMore(s, t, world.memory.value, PLAN[..i], PLAN[i]);
        TokensFollow(s, t, world.memory.value, PLAN[..i]);
        assert PLAN[..i + 1] == PLAN[..i] + [PLAN[i]];
      }
      assert PLAN[..|PLAN|] == PLAN;
      ok := true;
    }

    /**
     A whole run of the seeder. On a complete state it does nothing at all. When it succeeds the state
     is complete and on file, every earlier record is as it was, and exactly the tokens that the missing
     slots needed were handed out, in pool order.
     */
    method Seed() returns (ok: bool)
      requires Running()
      modifies this
      ensures Valid()
      ensures Complete(old(world.memory.value)) ==> ok && world == old(world) && trace == old(trace)
      ensures ok ==>
                && world.memory.Some? && Complete(world.memory.value)
                && |world.memory.value.validatorPools| == AtLeast(3, |old(world.memory.value.validatorPools)|)
                && (trace != old(trace) ==> world.disk == Intact(world.memory.value))
                && var s, t := old(world.memory.value), world.memory.value;
                   && Extends(s, t) && t.used == s.used + Needs(s, PLAN) <= |s.entityTokens|
                   && world.handed == old(world.handed) + Tokens(s, t.used) && InOrder(s, t, PLAN)
    {
      hide After, Needs, Finalizes;
      ok := TimeWarp();
      if !ok { return; }
      ok := RegisterValidators(VALIDATORS);
      if !ok { return; }
      NeedsReadsLifecycle(old(world.memory.value), world.memory.value, PLAN);
      ghost var ready := world.memory.value;
      ok := SeedSlots();
      if !ok { return; }
      OrderReadsTokens(old(world.memory.value), ready, world.memory.value, PLAN);
      forall slot: Slot ensures slot in world.memory.value.lifecycle { PlanHasEverySlot(slot); }
    }
  }

  lemma FirstTokens(s: SimState)
    requires s.used <= |s.entityTokens|
    ensures Tokens(s, s.used) == []
    ensures s.used < |s.entityTokens| ==> Tokens(s, s.used + 1) == [s.entityTokens[s.used]]
  {
  }

  lemma NothingSeeded(s: SimState)
    requires s.used <= |s.entityTokens|
    ensures Seeded(s, s, PLAN[..0]) && InOrder(s, s, PLAN[..0]) && Tokens(s, s.used) == []
  {
    assert PLAN[..0] == [];
  }

  lemma {:induction false} NeedsReadsLifecycle(s: SimState, t: SimState, slots: seq<Slot>)
    requires s.lifecycle == t.lifecycle
    ensures Needs(s, slots) == Needs(t, slots)
  {
    if slots != [] { NeedsReadsLifecycle(s, t, slots[..|slots| - 1]); }
  }

  lemma OrderReadsTokens(s: SimState, t: SimState, u: SimState, slots: seq<Slot>)
    requires s.lifecycle == t.lifecycle && s.entityTokens == t.entityTokens && s.used == t.used
    ensures InOrder(s, u, slots) <==> InOrder(t, u, slots)
  {
    NeedsReadsLifecycle(s, t, slots);
    forall i | 0 <= i < |slots| { NeedsReadsLifecycle(s, t, slots[..i]); }
  }
}
