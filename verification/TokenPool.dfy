/**
 The bot's cached state on disk, its pool of pre-published entity tokens and its lifecycle records,
 across processes that may stop at any point and saves that may fail or tear the file.
 */
module TokenPool {
  import opened Common
  import P = Paging

  datatype EntityToken = EntityToken(packageId: Text, moduleName: Text, witnessName: Text,
                                     treasuryCapId: Text, metadataId: Text)

  /** The lifecycle slots, one asset each. */
  datatype Slot =
    PendingVouch | Cancelled | Funding | Executing | Operational | Closed | ClosedTerm | Failed | Compensating

  datatype LifecycleAsset = LifecycleAsset(assetId: Text, entityCapId: Option<Text>, accumulatorId: Option<Text>,
                                           token: Option<EntityToken>)

  datatype SimState = SimState(timeWarped: bool, validatorPools: seq<Text>, entityTokens: seq<EntityToken>, used: nat,
                               lifecycle: map<Slot, LifecycleAsset>)

  const DEFAULT_STATE: SimState := SimState(false, [], [], 0, map[])

  /** The file: readable, or missing or torn by an interrupted write. */
  datatype Disk = Intact(state: SimState) | Unreadable

  /** The token a process holds, and whether the advanced cursor has been saved since it was taken. */
  datatype Hold = Nothing | Taken(token: EntityToken) | Recorded(token: EntityToken)

  /**
   `memory` is the running process, if any; `handed` lists the tokens passed to a finalize call, and
   `published` every token that a deploy ever put into the pool.
   */
  datatype World = World(disk: Disk, memory: Option<SimState>, hold: Hold, handed: seq<EntityToken>,
                         published: set<EntityToken>)

  /** What a failed save leaves behind. */
  datatype Left = OldText | NewText | TornText

  datatype Action =
    | Start
    | Stop
    | Take
    | Warp
    | Register(pool: Text)
    | Record(slot: Slot, asset: LifecycleAsset)
    | Save
    | SaveFails(left: Left)
    | Finalize
    // the deploy runbook, between processes
    | Publish(tokens: seq<EntityToken>)

  function Load(disk: Disk): SimState {
    match disk case Intact(s) => s case Unreadable => DEFAULT_STATE
  }

  /** `take_token`: the next unused token and the cursor moved past it. */
  function TakeToken(s: SimState): (Option<EntityToken>, SimState) {
    if s.used < |s.entityTokens| then (Some(s.entityTokens[s.used]), s.(used := s.used + 1)) else (None, s)
  }

  /** The state a process keeps in memory and updates in place. */
  class LiveState {
    var entityTokens: seq<EntityToken>
    var used: nat

    constructor (s: SimState)
      ensures entityTokens == s.entityTokens && used == s.used
    {
      entityTokens, used := s.entityTokens, s.used;
    }

    method Take() returns (token: Option<EntityToken>)
      modifies this`used
      ensures forall s: SimState :: s.entityTokens == entityTokens && s.used == old(used) ==>
                TakeToken(s) == (token, s.(used := used))
    {
      token := None;
      if used < |entityTokens| {
        token := Some(entityTokens[used]);
        used := used + 1;
      }
    }
  }

  /** A recorded slot stays as it is. */
  function RecordAsset(s: SimState, slot: Slot, asset: LifecycleAsset): SimState {
    if slot in s.lifecycle then s else s.(lifecycle := s.lifecycle[slot := asset])
  }

  function Saved(h: Hold): Hold {
    match h case Taken(t) => Recorded(t) case _ => h
  }

  function FileAfter(w: World, s: SimState, left: Left): Disk {
    match left case OldText => w.disk case NewText => Intact(s) case TornText => Unreadable
  }

  function Published(disk: Disk, tokens: seq<EntityToken>): Disk {
    var s := Load(disk);
    Intact(s.(entityTokens := s.entityTokens + tokens))
  }

  predicate NewTokens(w: World, tokens: seq<EntityToken>) {
    P.Distinct(tokens) && forall t <- tokens :: t !in w.published
  }

  /** One step; an action that the world is not ready for changes nothing. */
  function Step(w: World, a: Action): World {
    match w.memory
    case None => (
      match a
      case Start => w.(memory := Some(Load(w.disk)))
      case Publish(tokens) =>
        if NewTokens(w, tokens) then
          w.(disk := Published(w.disk, tokens), published := w.published + set t <- tokens)
        else w
      case _ => w
    )
    case Some(s) => (
      match a
      case Stop => w.(memory := None, hold := Nothing)
      case Take =>
        var (token, t) := TakeToken(s);
        if token.Some? && w.hold.Nothing? then w.(memory := Some(t), hold := Taken(token.value)) else w
      case Warp => w.(memory := Some(s.(timeWarped := true)))
      case Register(pool) => w.(memory := Some(s.(validatorPools := s.validatorPools + [pool])))
      case Record(slot, asset) => w.(memory := Some(RecordAsset(s, slot, asset)))
      case Save => w.(disk := Intact(s), hold := Saved(w.hold))
      case SaveFails(left) => w.(disk := FileAfter(w, s, left), hold := Nothing)
      case Finalize => if w.hold.Recorded? then w.(handed := w.handed + [w.hold.token], hold := Nothing) else w
      case _ => w
    )
  }

  function After(w: World, actions: seq<Action>): World {
    if actions == [] then w else Step(After(w, actions[..|actions| - 1]), actions[|actions| - 1])
  }

  /** A process starts with what the file holds, or from nothing if it cannot be read, and by no other step. */
  lemma StartReadsTheFile(w: World, a: Action)
    requires w.memory == None
    ensures Step(w, Start).memory
         == Some(if w.disk.Intact? then w.disk.state else SimState(false, [], [], 0, map[]))
    ensures Step(w, Start) == w.(memory := Step(w, Start).memory)
    ensures !a.Start? ==> Step(w, a).memory == None
  {
  }

  /** What a save leaves on file: the process's state, or after a failure that, the old text or a torn one. */
  lemma SaveWritesTheFile(w: World)
    requires w.memory.Some?
    ensures Step(w, Save).disk == Step(w, SaveFails(NewText)).disk == Intact(w.memory.value)
    ensures Step(w, SaveFails(OldText)).disk == w.disk && Step(w, SaveFails(TornText)).disk == Unreadable
    ensures forall a :: a != Save && !a.SaveFails? ==> Step(w, a).disk == w.disk
  {
  }

  // ------------------------------------------------------------------ no token twice

  function Unused(s: SimState): seq<EntityToken> {
    if s.used <= |s.entityTokens| then s.entityTokens[s.used..] else []
  }

  /** A copy of the state that may be started from: nothing it would still hand out has been handed out. */
  predicate Sound(s: SimState, handed: seq<EntityToken>, published: set<EntityToken>) {
    && s.used <= |s.entityTokens| && P.Distinct(s.entityTokens)
    && (forall t <- s.entityTokens :: t in published)
    && (forall t <- Unused(s) :: t !in handed)
  }

  predicate HoldSound(w: World) {
    match w.hold
    case Nothing => true
    case Taken(t) => w.memory.Some? && t !in w.handed && t in w.published && t !in Unused(w.memory.value)
    case Recorded(t) =>
      && w.memory.Some? && t !in w.handed && t in w.published && t !in Unused(w.memory.value)
      && (w.disk.Intact? ==> t !in Unused(w.disk.state))
  }

  predicate Inv(w: World) {
    && P.Distinct(w.handed)
    && (forall t <- w.handed :: t in w.published)
    && (w.disk.Intact? ==> Sound(w.disk.state, w.handed, w.published))
    && (w.memory.Some? ==> Sound(w.memory.value, w.handed, w.published))
    && HoldSound(w)
  }

  lemma TakeKeepsSound(s: SimState, handed: seq<EntityToken>, published: set<EntityToken>)
    requires Sound(s, handed, published) && s.used < |s.entityTokens|
    ensures var (token, t) := TakeToken(s);
            && Sound(t, handed, published)
            && token.value !in handed && token.value in published && token.value !in Unused(t)
  {
    var t := s.(used := s.used + 1);
    var token := s.entityTokens[s.used];
    assert Unused(s)[0] == token && token in Unused(s);
    forall x | x in Unused(t) ensures x in Unused(s) && x != token {
      var i :| 0 <= i < |Unused(t)| && Unused(t)[i] == x;
      assert s.entityTokens[t.used + i] == x && Unused(s)[i + 1] == x;
    }
  }

  lemma PublishKeepsSound(s: SimState, handed: seq<EntityToken>, published: set<EntityToken>, tokens: seq<EntityToken>)
    requires Sound(s, handed, published)
    requires P.Distinct(tokens) && forall t <- tokens :: t !in published
    requires forall t <- handed :: t in published
    ensures Sound(s.(entityTokens := s.entityTokens + tokens), handed, published + set t <- tokens)
  {
    var all := s.entityTokens + tokens;
    var after := s.(entityTokens := all);
    assert Unused(after) == Unused(s) + tokens;
    forall i, k | 0 <= i < k < |all| ensures all[i] != all[k] {
      if i < |s.entityTokens| <= k { assert all[i] in s.entityTokens && all[k] in tokens; }
    }
  }

  lemma FinalizeKeepsSound(s: SimState, handed: seq<EntityToken>, published: set<EntityToken>, t: EntityToken)
    requires Sound(s, handed, published) && t !in Unused(s)
    ensures Sound(s, handed + [t], published)
  {
  }

  lemma FinalizeKeeps(w: World)
    requires Inv(w) && w.hold.Recorded?
    ensures Inv(Step(w, Finalize))
  {
    hide Sound, Unused;
    var t := w.hold.token;
    if w.disk.Intact? { FinalizeKeepsSound(w.disk.state, w.handed, w.published, t); }
    FinalizeKeepsSound(w.memory.value, w.handed, w.published, t);
  }

  lemma PublishKeeps(w: World, tokens: seq<EntityToken>)
    requires Inv(w) && w.memory.None?
    ensures Inv(Step(w, Publish(tokens)))
  {
    if NewTokens(w, tokens) {
      assert Sound(DEFAULT_STATE, w.handed, w.published);
      PublishKeepsSound(Load(w.disk), w.handed, w.published, tokens);
      hide Sound, Unused, P.Distinct;
    }
  }

  lemma TakeKeeps(w: World)
    requires Inv(w) && w.memory.Some?
    ensures Inv(Step(w, Take))
  {
    hide Unused, Sound;
    if w.memory.value.used < |w.memory.value.entityTokens| {
      TakeKeepsSound(w.memory.value, w.handed, w.published);
    }
  }

  lemma OtherFieldsDoNotMatter(s: SimState, t: SimState, handed: seq<EntityToken>, published: set<EntityToken>)
    requires Sound(s, handed, published) && t.entityTokens == s.entityTokens && t.used == s.used
    ensures Sound(t, handed, published) && Unused(t) == Unused(s)
  {
  }

  lemma StepKeeps(w: World, a: Action)
    requires Inv(w)
    ensures Inv(Step(w, a))
  {
    match a {
      case Finalize => if w.memory.Some? && w.hold.Recorded? { FinalizeKeeps(w); }
      case Publish(tokens) => if w.memory.None? { PublishKeeps(w, tokens); }
      case Take => if w.memory.Some? { TakeKeeps(w); }
      case Start => assert Sound(DEFAULT_STATE, w.handed, w.published);
      case Stop => hide Sound, Unused;
      case _ =>
        hide Sound, Unused;
        if w.memory.Some? {
          OtherFieldsDoNotMatter(w.memory.value, Step(w, a).memory.value, w.handed, w.published);
        }
    }
  }

  lemma {:induction false} EveryRunKeeps(w: World, actions: seq<Action>)
    requires Inv(w)
    ensures Inv(After(w, actions))
  {
    hide Inv, Step;
    if actions != [] {
      EveryRunKeeps(w, actions[..|actions| - 1]);
      StepKeeps(After(w, actions[..|actions| - 1]), actions[|actions| - 1]);
    }
  }

  /** Before the first process: a pool of distinct tokens and nothing handed out. */
  predicate Deployed(w: World) {
    && w.memory.None? && w.hold.Nothing? && w.handed == []
    && w.disk.Intact? && w.disk.state.used == 0 && P.Distinct(w.disk.state.entityTokens)
    && w.published == set t <- w.disk.state.entityTokens
  }

  /**
   Whatever the processes do and wherever they stop, with failing and torn saves, no token is passed to
   two finalize calls.
   */
  lemma NoTokenTwice(w: World, actions: seq<Action>)
    requires Deployed(w)
    ensures P.Distinct(After(w, actions).handed)
  {
    EveryRunKeeps(w, actions);
  }

  // ------------------------------------------------------------------ what interruptions cost

  predicate Tears(a: Action) {
    a.SaveFails? && a.left.TornText?
  }

  function Interruptions(actions: seq<Action>): nat {
    if actions == [] then 0
    else
      var a := actions[|actions| - 1];
      Interruptions(actions[..|actions| - 1]) + if a.Stop? || a.SaveFails? then 1 else 0
  }

  function Held(h: Hold): nat {
    if h.Nothing? then 0 else 1
  }

  /** Every record of `older` is in `newer`, unchanged. */
  predicate Extends(older: SimState, newer: SimState) {
    forall slot :: slot in older.lifecycle ==> slot in newer.lifecycle && newer.lifecycle[slot] == older.lifecycle[slot]
  }

  /** The running process has everything that is on file. */
  predicate Ahead(w: World) {
    && w.disk.Intact?
    && (w.memory.Some? ==> Extends(w.disk.state, w.memory.value) && w.disk.state.used <= w.memory.value.used)
  }

  /** The saved cursor counts what was handed out and at most one token per interruption. */
  predicate Accounted(w: World, interruptions: nat) {
    && Ahead(w)
    && |w.handed| <= w.disk.state.used <= |w.handed| + interruptions + Held(w.hold)
    && (w.memory.Some? ==>
          |w.handed| + Held(w.hold) <= w.memory.value.used <= |w.handed| + interruptions + Held(w.hold))
    && (w.hold.Recorded? ==> |w.handed| < w.disk.state.used)
    && (w.memory.None? ==> w.hold.Nothing?)
  }

  lemma StepAccounted(w: World, a: Action, n: nat)
    requires Accounted(w, n) && !Tears(a)
    ensures Accounted(Step(w, a), n + if a.Stop? || a.SaveFails? then 1 else 0)
    ensures Extends(w.disk.state, Step(w, a).disk.state)
  {
  }

  /**
   While no write tears the file, the tokens the file counts as used are the ones handed to finalize
   and at most one more for each stop or failed save.
   */
  lemma {:induction false} TokensAreAccounted(w: World, actions: seq<Action>)
    requires Deployed(w) && forall a <- actions :: !Tears(a)
    ensures Accounted(After(w, actions), Interruptions(actions))
  {
    hide Step, Accounted, Tears;
    if actions != [] {
      var n := |actions| - 1;
      assert actions[n] in actions && forall a <- actions[..n] :: a in actions;
      TokensAreAccounted(w, actions[..n]);
      StepAccounted(After(w, actions[..n]), actions[n], Interruptions(actions[..n]));
    } else {
      DeployedIsAccounted(w);
    }
  }

  lemma DeployedIsAccounted(w: World)
    requires Deployed(w)
    ensures Accounted(w, 0)
  {
  }

  lemma {:induction false} AfterBoth(w: World, first: seq<Action>, more: seq<Action>)
    ensures After(w, first + more) == After(After(w, first), more)
  {
    hide Step;
    if more == [] {
      assert first + more == first;
    } else {
      assert (first + more)[..|first + more| - 1] == first + more[..|more| - 1];
      AfterBoth(w, first, more[..|more| - 1]);
    }
  }

  /** What is on file at some time is on file, unchanged, at every later time: nothing overwrites a record. */
  lemma {:induction false} RecordsAreKept(w: World, first: seq<Action>, more: seq<Action>)
    requires Deployed(w) && forall a <- first + more :: !Tears(a)
    ensures After(w, first).disk.Intact? && After(w, first + more).disk.Intact?
    ensures var older, newer := After(w, first).disk.state, After(w, first + more).disk.state;
            forall slot <- older.lifecycle :: slot in newer.lifecycle && newer.lifecycle[slot] == older.lifecycle[slot]
  {
    hide Step, Tears;
    assert forall a <- first :: a in first + more;
    TokensAreAccounted(w, first);
    TokensAreAccounted(w, first + more);
    if more != [] {
      var m := |more| - 1;
      var most := first + more[..m];
      assert first + more == most + [more[m]];
      assert more[m] in first + more && forall a <- most :: a in first + more;
      RecordsAreKept(w, first, more[..m]);
      TokensAreAccounted(w, most);
      StepAccounted(After(w, most), more[m], Interruptions(most));
      AfterBoth(w, most, [more[m]]);
    } else {
      assert first + more == first;
    }
  }
}
