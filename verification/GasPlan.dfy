/**
 The operator's gas throttle and the loop that funds the users it plans for. Amounts are MIST. The
 throttle counts the grants; the operator also pays gas for every payment it makes.
 */
module GasPlan {
  import opened Common

  datatype GasBudget = GasBudget(perUserGrant: u64, operatorReserve: u64, perAsset: u64)

  datatype Plan = Plan(balance: u64, requestedUsers: u64, effectiveUsers: u64,
                       requestedAssets: u64, effectiveAssets: u64, downscaled: bool)

  /** The gas budget of one payment. */
  const FUND_TX_GAS_BUDGET: u64 := 50_000_000

  /** The most that the gas of a payment costs: the budget or less. */
  type Gas = f: nat | f <= FUND_TX_GAS_BUDGET

  function SaturatingSub(a: u64, b: u64): u64 {
    if a < b then 0 else a - b
  }

  function Min(a: u64, b: u64): u64 {
    if a < b then a else b
  }

  function Spendable(balance: u64, b: GasBudget): u64 {
    SaturatingSub(balance, b.operatorReserve)
  }

  function AffordableUsers(balance: u64, requested: u64, b: GasBudget): u64 {
    if b.perUserGrant == 0 then requested else Min(requested, Spendable(balance, b) / b.perUserGrant)
  }

  /** The product wraps at 64 bits, as unchecked multiplication does. */
  function UserGrants(users: u64, b: GasBudget): u64 {
    (users * b.perUserGrant) % TWO_64
  }

  function AffordableAssets(balance: u64, users: u64, requested: u64, b: GasBudget): u64 {
    if b.perAsset == 0 then requested
    else Min(requested, SaturatingSub(Spendable(balance, b), UserGrants(users, b)) / b.perAsset)
  }

  function PlanGas(balance: u64, requestedUsers: u64, requestedAssets: u64, b: GasBudget): Plan {
    var users := AffordableUsers(balance, requestedUsers, b);
    var assets := AffordableAssets(balance, users, requestedAssets, b);
    Plan(balance, requestedUsers, users, requestedAssets, assets, users < requestedUsers || assets < requestedAssets)
  }

  // ------------------------------------------------------------------ the plan

  lemma Cut(s: nat, g: nat)
    requires g > 0
    ensures (s / g) * g <= s < (s / g + 1) * g
  {
    assert s == (s / g) * g + s % g;
  }

  lemma Scaled(m: nat, n: nat, g: nat)
    requires m <= n
    ensures m * g <= n * g
  {
  }

  /** `n` is the most of `requested` whose cost stays within `limit`. */
  predicate MostWithin(n: nat, requested: nat, each: nat, limit: nat) {
    && n <= requested && n * each <= limit
    && (n < requested ==> (n + 1) * each > limit)
  }

  lemma CutIsMost(requested: u64, each: u64, limit: u64)
    requires each > 0
    ensures MostWithin(Min(requested, limit / each), requested, each, limit)
  {
    Cut(limit, each);
    if requested < limit / each { Scaled(requested, limit / each, each); }
  }

  /**
   Every plan, zero grants included: users and assets together stay within what the balance leaves
   above the reserve, no product overflows on the way, and whatever was cut would not fit one more.
   */
  lemma PlanFitsAndWastesNothing(balance: u64, requestedUsers: u64, requestedAssets: u64, b: GasBudget)
    ensures var p := PlanGas(balance, requestedUsers, requestedAssets, b);
            var limit := if balance < b.operatorReserve then 0 else balance - b.operatorReserve;
            && p.effectiveUsers * b.perUserGrant < TWO_64
            && p.effectiveUsers * b.perUserGrant + p.effectiveAssets * b.perAsset <= limit
            && p.effectiveUsers <= requestedUsers && p.effectiveAssets <= requestedAssets
            && (p.effectiveUsers < requestedUsers ==> (p.effectiveUsers + 1) * b.perUserGrant > limit)
            && (p.effectiveAssets < requestedAssets ==>
                  p.effectiveUsers * b.perUserGrant + (p.effectiveAssets + 1) * b.perAsset > limit)
            && p.balance == balance && p.requestedUsers == requestedUsers && p.requestedAssets == requestedAssets
            && (p.downscaled <==> p.effectiveUsers < requestedUsers || p.effectiveAssets < requestedAssets)
  {
    hide UserGrants, AffordableUsers;
    var users := AffordableUsers(balance, requestedUsers, b);
    UsersFit(balance, requestedUsers, b);
    GrantsDoNotWrap(users, b);
    AssetsFit(requestedAssets, b.perAsset, Spendable(balance, b) - UserGrants(users, b));
  }

  lemma GrantsDoNotWrap(users: u64, b: GasBudget)
    requires users * b.perUserGrant < TWO_64
    ensures UserGrants(users, b) == users * b.perUserGrant
  {
    var n: nat := users * b.perUserGrant;
    assert n % TWO_64 == n;
  }

  lemma UsersFit(balance: u64, requested: u64, b: GasBudget)
    ensures var n := AffordableUsers(balance, requested, b);
            && MostWithin(n, requested, b.perUserGrant, Spendable(balance, b))
            && n * b.perUserGrant <= Spendable(balance, b)
  {
    if b.perUserGrant > 0 { CutIsMost(requested, b.perUserGrant, Spendable(balance, b)); }
  }

  lemma AssetsFit(requested: u64, each: u64, rest: u64)
    ensures var n := if each == 0 then requested else Min(requested, rest / each);
            MostWithin(n, requested, each, rest) && n * each <= rest
  {
    if each > 0 { CutIsMost(requested, each, rest); }
  }

  // ------------------------------------------------------------------ the funding loop

  /** How the two calls made for a user go, and the gas an attempted payment costs, paid or failed. */
  datatype Calls = Calls(balanceRead: bool, paid: bool, fee: nat)

  /** Balances are naturals: the coin's supply is what keeps them within 64 bits. */
  type Wallets = map<Text, nat>

  function BalanceOf(wallets: Wallets, user: Text): nat {
    if user in wallets then wallets[user] else 0
  }

  /** A balance that cannot be read counts as zero. */
  function SeenBalance(wallets: Wallets, user: Text, c: Calls): nat {
    if c.balanceRead then BalanceOf(wallets, user) else 0
  }

  datatype Pass = Pass(wallets: Wallets, funded: nat, spent: nat, fees: nat)

  function FundOne(p: Pass, user: Text, c: Calls, grant: u64): Pass {
    var seen := SeenBalance(p.wallets, user, c);
    if seen >= grant then p
    else if !c.paid then p.(fees := p.fees + c.fee)
    else
      var need := grant - seen;
      Pass(p.wallets[user := BalanceOf(p.wallets, user) + need], p.funded + 1, p.spent + need, p.fees + c.fee)
  }

  function FundAll(wallets: Wallets, users: seq<Text>, calls: seq<Calls>, grant: u64): Pass
    requires |users| == |calls|
  {
    if users == [] then Pass(wallets, 0, 0, 0)
    else
      var n := |users| - 1;
      FundOne(FundAll(wallets, users[..n], calls[..n], grant), users[n], calls[n], grant)
  }

  class Chain {
    var wallets: Wallets
    /** What the operator has paid out, and what its payments have cost in gas. */
    var spent: nat
    var fees: nat

    method FundUsers(users: seq<Text>, calls: seq<Calls>, b: GasBudget) returns (funded: nat)
      requires |users| == |calls|
      modifies this
      ensures var pass := FundAll(old(wallets), users, calls, b.perUserGrant);
              && funded == pass.funded && wallets == pass.wallets
              && spent == old(spent) + pass.spent && fees == old(fees) + pass.fees
    {
      funded := 0;
      for i := 0 to |users|
        invariant var pass := FundAll(old(wallets), users[..i], calls[..i], b.perUserGrant);
                  && funded == pass.funded && wallets == pass.wallets
                  && spent == old(spent) + pass.spent && fees == old(fees) + pass.fees
      {
        assert users[..i + 1][..i] == users[..i] && calls[..i + 1][..i] == calls[..i];
        var bal := SeenBalance(wallets, users[i], calls[i]);
        if bal >= b.perUserGrant { continue; }
        var need := b.perUserGrant - bal;
        fees := fees + calls[i].fee;
        if calls[i].paid {
          wallets := wallets[users[i] := BalanceOf(wallets, users[i]) + need];
          spent := spent + need;
          funded := funded + 1;
        }
      }
      assert users[..|users|] == users && calls[..|calls|] == calls;
    }
  }

  lemma OneMore(n: nat, g: nat)
    ensures (n + 1) * g == n * g + g
  {
  }

  predicate Priced(calls: seq<Calls>, f: Gas) {
    forall c <- calls :: c.fee <= f
  }

  /** Whatever fails, a pass pays out at most one grant for each user it funded, and one fee for each user. */
  lemma {:induction false} PassIsBounded(wallets: Wallets, users: seq<Text>, calls: seq<Calls>, grant: u64, f: Gas)
    requires |users| == |calls|
    ensures var p := FundAll(wallets, users, calls, grant);
            p.spent <= p.funded * grant && p.funded <= |users| && (Priced(calls, f) ==> p.fees <= |users| * f)
  {
    if users != [] {
      var n := |users| - 1;
      assert calls[n] in calls && forall c <- calls[..n] :: c in calls;
      assert Priced(calls, f) ==> Priced(calls[..n], f) && calls[n].fee <= f;
      PassIsBounded(wallets, users[..n], calls[..n], grant, f);
      var p := FundAll(wallets, users[..n], calls[..n], grant);
      var q := FundAll(wallets, users, calls, grant);
      hide FundAll, FundOne;
      FundOneIsBounded(p, users[n], calls[n], grant);
      OneMore(p.funded, grant);
      OneMore(n, f);
    }
  }

  lemma FundOneIsBounded(p: Pass, user: Text, c: Calls, grant: u64)
    ensures var q := FundOne(p, user, c, grant);
            && (q.(fees := p.fees) == p || (q.funded == p.funded + 1 && p.spent < q.spent <= p.spent + grant))
            && p.fees <= q.fees <= p.fees + c.fee
  {
  }

  /** The grants of the planned users, gas apart, stay within the balance above the reserve. */
  lemma PlannedGrantsAreAfforded(balance: u64, requestedUsers: u64, requestedAssets: u64, b: GasBudget,
                                 wallets: Wallets, users: seq<Text>, calls: seq<Calls>)
    requires |users| == |calls| == PlanGas(balance, requestedUsers, requestedAssets, b).effectiveUsers
    ensures FundAll(wallets, users, calls, b.perUserGrant).spent <= SaturatingSub(balance, b.operatorReserve)
  {
    hide FundAll, PlanGas;
    PlanFitsAndWastesNothing(balance, requestedUsers, requestedAssets, b);
    PassIsBounded(wallets, users, calls, b.perUserGrant, 0);
    Scaled(FundAll(wallets, users, calls, b.perUserGrant).funded, |users|, b.perUserGrant);
  }

  // ------------------------------------------------------------------ gas

  function Drawn(p: Pass): nat {
    p.spent + p.fees
  }

  /**
   The operator's balance holds the amount and the gas budget of every payment at the time it is
   attempted, which is what the node asks for before it runs one.
   */
  predicate Covered(balance: u64, wallets: Wallets, users: seq<Text>, calls: seq<Calls>, grant: u64)
    requires |users| == |calls|
  {
    users == [] ||
    var n := |users| - 1;
    var p := FundAll(wallets, users[..n], calls[..n], grant);
    var seen := SeenBalance(p.wallets, users[n], calls[n]);
    && Covered(balance, wallets, users[..n], calls[..n], grant)
    && (seen < grant ==> Drawn(p) + (grant - seen) + FUND_TX_GAS_BUDGET <= balance)
  }

  /** No pass over `n` users runs dry, whatever their wallets hold and whatever the calls answer. */
  ghost predicate NeverDry(balance: u64, n: nat, grant: u64, f: Gas) {
    forall wallets: Wallets, users: seq<Text>, calls: seq<Calls> ::
      |users| == |calls| == n && Priced(calls, f) ==> Covered(balance, wallets, users, calls, grant)
  }

  /** No pass over `n` users draws more than the balance. */
  ghost predicate NeverOverdrawn(balance: u64, n: nat, grant: u64, f: Gas) {
    forall wallets: Wallets, users: seq<Text>, calls: seq<Calls> ::
      |users| == |calls| == n && Priced(calls, f) ==> Drawn(FundAll(wallets, users, calls, grant)) <= balance
  }

  /** What `n` users can cost: a grant and the gas of its payment each, or nothing without a grant. */
  function WorstCost(n: nat, grant: u64, f: Gas): nat {
    if grant == 0 then 0 else n * (grant + f)
  }

  /** What they can ask of the balance: the last payment needs its whole gas budget up front. */
  function WorstNeed(n: nat, grant: u64, f: Gas): nat {
    if n == 0 || grant == 0 then 0 else WorstCost(n - 1, grant, f) + grant + FUND_TX_GAS_BUDGET
  }

  lemma WorstCostGrows(n: nat, grant: u64, f: Gas)
    ensures WorstCost(n + 1, grant, f) == WorstCost(n, grant, f) + WorstCost(1, grant, f)
  {
  }

  lemma WorstNeedGrows(n: nat, grant: u64, f: Gas)
    ensures WorstNeed(n, grant, f) <= WorstNeed(n + 1, grant, f)
    ensures WorstCost(n, grant, f) <= WorstNeed(n, grant, f)
  {
    if n > 0 { WorstCostGrows(n - 1, grant, f); }
    assert WorstCost(1, grant, f) <= grant + FUND_TX_GAS_BUDGET;
    assert WorstCost(0, grant, f) == 0;
    hide WorstCost;
  }

  lemma {:induction false} PassCostsAtMost(wallets: Wallets, users: seq<Text>, calls: seq<Calls>, grant: u64, f: Gas)
    requires |users| == |calls| && Priced(calls, f)
    ensures Drawn(FundAll(wallets, users, calls, grant)) <= WorstCost(|users|, grant, f)
  {
    if users != [] {
      var n := |users| - 1;
      assert calls[n] in calls && forall c <- calls[..n] :: c in calls;
      PassCostsAtMost(wallets, users[..n], calls[..n], grant, f);
      WorstCostGrows(n, grant, f);
      OneCostsAtMost(FundAll(wallets, users[..n], calls[..n], grant), users[n], calls[n], grant, f);
    }
  }

  lemma OneCostsAtMost(p: Pass, user: Text, c: Calls, grant: u64, f: Gas)
    requires c.fee <= f
    ensures Drawn(FundOne(p, user, c, grant)) <= Drawn(p) + WorstCost(1, grant, f)
  {
  }

  lemma {:induction false} EnoughIsCovered(balance: u64, wallets: Wallets, users: seq<Text>, calls: seq<Calls>,
                                           grant: u64, f: Gas)
    requires |users| == |calls| && Priced(calls, f) && WorstNeed(|users|, grant, f) <= balance
    ensures Covered(balance, wallets, users, calls, grant)
  {
    if users != [] {
      var n := |users| - 1;
      assert forall c <- calls[..n] :: c in calls;
      WorstNeedGrows(n, grant, f);
      EnoughIsCovered(balance, wallets, users[..n], calls[..n], grant, f);
      PassCostsAtMost(wallets, users[..n], calls[..n], grant, f);
      hide FundAll, WorstCost;
    }
  }

  // The worst pass: `n` users with distinct addresses and empty wallets, every payment at the highest gas.

  function User(i: nat): Text {
    seq(i, k => 0)
  }

  function Users(n: nat): (users: seq<Text>)
    ensures |users| == n
  {
    seq(n, i requires 0 <= i < n => User(i))
  }

  function HighGas(n: nat, f: Gas): (calls: seq<Calls>)
    ensures |calls| == n && Priced(calls, f)
  {
    seq(n, i => Calls(true, true, f))
  }

  lemma WorstPassGrows(n: nat, grant: u64, f: Gas)
    requires n > 0
    ensures FundAll(map[], Users(n), HighGas(n, f), grant)
         == FundOne(FundAll(map[], Users(n - 1), HighGas(n - 1, f), grant), User(n - 1), Calls(true, true, f), grant)
    ensures Users(n)[..n - 1] == Users(n - 1) && HighGas(n, f)[..n - 1] == HighGas(n - 1, f)
  {
    assert Users(n)[..n - 1] == Users(n - 1) && HighGas(n, f)[..n - 1] == HighGas(n - 1, f);
  }

  lemma PaysInFull(p: Pass, user: Text, grant: u64, f: Gas)
    requires user !in p.wallets
    ensures var q := FundOne(p, user, Calls(true, true, f), grant);
            && Drawn(q) == Drawn(p) + WorstCost(1, grant, f)
            && forall u <- q.wallets :: u in p.wallets || u == user
  {
  }

  lemma UserIsNew(wallets: Wallets, n: nat)
    requires forall u <- wallets :: |u| < n
    ensures User(n) !in wallets && |User(n)| == n
  {
  }

  lemma NobodyToPay(grant: u64, f: Gas)
    ensures FundAll(map[], Users(0), HighGas(0, f), grant) == Pass(map[], 0, 0, 0) && WorstCost(0, grant, f) == 0
    ensures Drawn(Pass(map[], 0, 0, 0)) == 0
  {
  }

  lemma {:induction false} WorstPass(n: nat, grant: u64, f: Gas)
    ensures var p := FundAll(map[], Users(n), HighGas(n, f), grant);
            && Drawn(p) == WorstCost(n, grant, f)
            && forall u <- p.wallets :: |u| < n
  {
    hide *;
    if n == 0 {
      NobodyToPay(grant, f);
    } else {
      var before := FundAll(map[], Users(n - 1), HighGas(n - 1, f), grant);
      WorstPass(n - 1, grant, f);
      WorstPassGrows(n, grant, f);
      WorstCostGrows(n - 1, grant, f);
      UserIsNew(before.wallets, n - 1);
      PaysInFull(before, User(n - 1), grant, f);
    }
  }

  lemma WorstPassIsCovered(balance: u64, n: nat, grant: u64, f: Gas)
    requires Covered(balance, map[], Users(n), HighGas(n, f), grant)
    ensures WorstNeed(n, grant, f) <= balance
  {
    if n > 0 && grant > 0 {
      WorstPass(n - 1, grant, f);
      WorstPassGrows(n, grant, f);
      assert |User(n - 1)| == n - 1 && User(n - 1) == Users(n)[n - 1];
      hide FundAll, User, WorstCost;
    }
  }

  /**
   The exact conditions for a pass over `n` users whose payments cost at most `f` in gas. It never runs
   dry if and only if the balance holds a grant and the gas of its payment for every user but one, and
   a grant and a whole gas budget for that one; it never draws more than the balance if and only if
   this holds a grant and the gas for every user.
   */
  lemma NeverDryIff(balance: u64, n: nat, grant: u64, f: Gas)
    ensures NeverDry(balance, n, grant, f) <==> WorstNeed(n, grant, f) <= balance
    ensures NeverOverdrawn(balance, n, grant, f) <==> WorstCost(n, grant, f) <= balance
  {
    hide Covered, FundAll, WorstCost, WorstNeed, Drawn, Priced;
    forall wallets: Wallets, users: seq<Text>, calls: seq<Calls> | |users| == |calls| == n && Priced(calls, f)
      ensures WorstNeed(n, grant, f) <= balance ==> Covered(balance, wallets, users, calls, grant)
      ensures Drawn(FundAll(wallets, users, calls, grant)) <= WorstCost(n, grant, f)
    {
      if WorstNeed(n, grant, f) <= balance { EnoughIsCovered(balance, wallets, users, calls, grant, f); }
      PassCostsAtMost(wallets, users, calls, grant, f);
    }
    WorstPass(n, grant, f);
    assert |Users(n)| == |HighGas(n, f)| == n;
    if Covered(balance, map[], Users(n), HighGas(n, f), grant) { WorstPassIsCovered(balance, n, grant, f); }
  }

  /** The most users the throttle ever plans for a request, over every balance. */
  function MostPlanned(requested: u64, b: GasBudget): u64 {
    AffordableUsers(TWO_64 - 1, requested, b)
  }

  /** The gas that `n` payments ask of the reserve: what each costs, and for the last one its whole budget. */
  function GasNeed(n: nat, f: Gas): nat {
    if n == 0 then 0 else (n - 1) * f + FUND_TX_GAS_BUDGET
  }

  lemma GasNeedGrows(n: nat, m: nat, f: Gas)
    requires n <= m
    ensures GasNeed(n, f) <= GasNeed(m, f)
  {
    if n > 0 { Scaled(n - 1, m - 1, f); }
  }

  lemma NeedSplits(n: nat, grant: u64, f: Gas)
    requires grant > 0
    ensures WorstNeed(n, grant, f) == n * grant + GasNeed(n, f)
  {
    if n > 0 {
      OneMore(n - 1, grant);
      assert (n - 1) * (grant + f) == (n - 1) * grant + (n - 1) * f;
    }
  }

  /**
   The promise of the throttle, for a budget, a request and the gas a payment can cost: at every balance
   the planned pass never runs dry, if and only if the reserve holds the gas that the most payments it
   can ever plan ask for.
   */
  lemma ThrottleHoldsIff(requestedUsers: u64, requestedAssets: u64, b: GasBudget, f: Gas)
    ensures (forall balance: u64 ::
               var p := PlanGas(balance, requestedUsers, requestedAssets, b);
               NeverDry(balance, p.effectiveUsers, b.perUserGrant, f))
       <==> b.perUserGrant == 0 || GasNeed(MostPlanned(requestedUsers, b), f) <= b.operatorReserve
  {
    hide NeverDry, GasNeed;
    forall balance: u64
      ensures NeverDry(balance, PlanGas(balance, requestedUsers, requestedAssets, b).effectiveUsers, b.perUserGrant, f)
         <==> WorstNeed(AffordableUsers(balance, requestedUsers, b), b.perUserGrant, f) <= balance
    {
      NeverDryIff(balance, AffordableUsers(balance, requestedUsers, b), b.perUserGrant, f);
    }
    if b.perUserGrant > 0 {
      if GasNeed(MostPlanned(requestedUsers, b), f) <= b.operatorReserve {
        forall balance: u64
          ensures WorstNeed(AffordableUsers(balance, requestedUsers, b), b.perUserGrant, f) <= balance
        {
          ReserveHoldsGas(balance, requestedUsers, b, f);
        }
      } else {
        WorstBalance(requestedUsers, b, f);
      }
    }
  }

  lemma PlansGrow(balance: u64, more: u64, requested: u64, b: GasBudget)
    requires balance <= more
    ensures AffordableUsers(balance, requested, b) <= AffordableUsers(more, requested, b)
  {
    if b.perUserGrant > 0 { QuotientGrows(Spendable(balance, b), Spendable(more, b), b.perUserGrant); }
  }

  lemma QuotientGrows(a: nat, b: nat, g: nat)
    requires a <= b && g > 0
    ensures a / g <= b / g
  {
    Cut(a, g);
    Cut(b, g);
    if b / g < a / g { Scaled(b / g + 1, a / g, g); }
  }

  lemma ReserveHoldsGas(balance: u64, requested: u64, b: GasBudget, f: Gas)
    requires b.perUserGrant > 0 && GasNeed(MostPlanned(requested, b), f) <= b.operatorReserve
    ensures WorstNeed(AffordableUsers(balance, requested, b), b.perUserGrant, f) <= balance
  {
    var n := AffordableUsers(balance, requested, b);
    PlansGrow(balance, TWO_64 - 1, requested, b);
    GasNeedGrows(n, MostPlanned(requested, b), f);
    UsersFit(balance, requested, b);
    NeedSplits(n, b.perUserGrant, f);
    hide MostPlanned, AffordableUsers;
    if balance < b.operatorReserve { NothingFits(n, b.perUserGrant); }
  }

  lemma NothingFits(n: nat, g: nat)
    requires g > 0 && n * g <= 0
    ensures n == 0
  {
    if n > 0 { Scaled(1, n, g); }
  }

  /** The balance that affords exactly the most planned users leaves only the reserve for their gas. */
  lemma WorstBalance(requested: u64, b: GasBudget, f: Gas)
    requires b.perUserGrant > 0 && GasNeed(MostPlanned(requested, b), f) > b.operatorReserve
    ensures exists balance: u64 :: WorstNeed(AffordableUsers(balance, requested, b), b.perUserGrant, f) > balance
  {
    var m := MostPlanned(requested, b);
    UsersFit(TWO_64 - 1, requested, b);
    hide MostPlanned, AffordableUsers, GasNeed, WorstNeed;
    var balance: u64 := b.operatorReserve + m * b.perUserGrant;
    ExactBalance(m, requested, b);
    NeedSplits(m, b.perUserGrant, f);
  }

  lemma ExactBalance(m: u64, requested: u64, b: GasBudget)
    requires b.perUserGrant > 0 && m <= requested && b.operatorReserve + m * b.perUserGrant < TWO_64
    ensures AffordableUsers(b.operatorReserve + m * b.perUserGrant, requested, b) == m
  {
    var s: nat := m * b.perUserGrant;
    Cut(s, b.perUserGrant);
    if s / b.perUserGrant < m { Scaled(s / b.perUserGrant + 1, m, b.perUserGrant); }
    if s / b.perUserGrant > m { Scaled(m + 1, s / b.perUserGrant, b.perUserGrant); OneMore(m, b.perUserGrant); }
  }

  /**
   The shipped budget, by where it starts to cut: 4.2 SUI are just enough for sixty users and eight
   assets, and one MIST less cuts an asset.
   */
  lemma DefaultBudgetCuts()
    ensures PlanGas(4_200_000_000, 60, 8, DEFAULT_BUDGET) == Plan(4_200_000_000, 60, 60, 8, 8, false)
    ensures PlanGas(4_199_999_999, 60, 8, DEFAULT_BUDGET) == Plan(4_199_999_999, 60, 60, 8, 7, true)
  {
  }

  const DEFAULT_BUDGET := GasBudget(60_000_000, 200_000_000, 50_000_000)

  /**
   The shipped budget. Its worked example, sixty users asked of 2 SUI, plans thirty users, whose pass
   can cost 1.8 SUI and the gas of thirty payments. The throttle's promise holds for a request if and
   only if the gas of all its payments but one stays within 0.15 SUI: at the full gas budget, up to
   four users.
   */
  lemma DefaultBudgetHoldsIff(requested: u64, requestedAssets: u64, f: Gas)
    ensures PlanGas(2_000_000_000, 60, 8, DEFAULT_BUDGET).effectiveUsers == 30
    ensures Drawn(FundAll(map[], Users(30), HighGas(30, f), DEFAULT_BUDGET.perUserGrant)) == 1_800_000_000 + 30 * f
    ensures (forall balance: u64 ::
               var p := PlanGas(balance, requested, requestedAssets, DEFAULT_BUDGET);
               NeverDry(balance, p.effectiveUsers, DEFAULT_BUDGET.perUserGrant, f))
       <==> requested == 0 || (requested - 1) * f <= 150_000_000
  {
    hide FundAll, NeverDry, Drawn;
    WorstPass(30, DEFAULT_BUDGET.perUserGrant, f);
    ThrottleHoldsIff(requested, requestedAssets, DEFAULT_BUDGET, f);
    DefaultRequests(requested, f);
  }

  lemma DefaultRequests(requested: u64, f: Gas)
    ensures GasNeed(MostPlanned(requested, DEFAULT_BUDGET), f) <= DEFAULT_BUDGET.operatorReserve
       <==> requested == 0 || (requested - 1) * f <= 150_000_000
  {
    var m := MostPlanned(requested, DEFAULT_BUDGET);
    if m < requested {
      assert m > 150_000_001;
      if f > 0 {
        MoreThan(m - 1, f);
        MoreThan(requested - 1, f);
      }
    }
  }

  lemma MoreThan(n: nat, f: nat)
    requires f > 0
    ensures n * f >= n
  {
  }

  // ------------------------------------------------------------------ what a pass leaves

  predicate AllPaid(calls: seq<Calls>) {
    forall c <- calls :: c.paid
  }

  predicate AllRead(calls: seq<Calls>) {
    forall c <- calls :: c.balanceRead
  }

  predicate AllFunded(wallets: Wallets, users: seq<Text>, grant: u64) {
    forall u <- users :: BalanceOf(wallets, u) >= grant
  }

  lemma {:induction false} PaidPassFunds(wallets: Wallets, users: seq<Text>, calls: seq<Calls>, grant: u64)
    requires |users| == |calls| && AllPaid(calls)
    ensures AllFunded(FundAll(wallets, users, calls, grant).wallets, users, grant)
  {
    if users != [] {
      var n := |users| - 1;
      assert calls[n] in calls && forall c <- calls[..n] :: c in calls;
      PaidPassFunds(wallets, users[..n], calls[..n], grant);
      var p := FundAll(wallets, users[..n], calls[..n], grant);
      var q := FundOne(p, users[n], calls[n], grant);
      assert FundAll(wallets, users, calls, grant) == q;
      hide FundAll;
      forall u | u in users ensures BalanceOf(q.wallets, u) >= grant {
        assert u in users[..n] || u == users[n];
      }
    }
  }

  /** No address occurs twice. */
  predicate Distinct(users: seq<Text>) {
    forall i, k :: 0 <= i < k < |users| ==> users[i] != users[k]
  }

  /** What a user is short of a grant, an unreadable balance counting as none. */
  function Short(before: nat, c: Calls, grant: u64): nat {
    if !c.balanceRead then grant else if before < grant then grant - before else 0
  }

  /** What a user who had `before` is owed by a pass: the rest of a grant if the payment succeeds. */
  function Due(before: nat, c: Calls, grant: u64): nat {
    if c.paid then Short(before, c, grant) else 0
  }

  function Dues(wallets: Wallets, users: seq<Text>, calls: seq<Calls>, grant: u64): nat
    requires |users| == |calls|
  {
    if users == [] then 0
    else
      var n := |users| - 1;
      Dues(wallets, users[..n], calls[..n], grant) + Due(BalanceOf(wallets, users[n]), calls[n], grant)
  }

  /** How many users are short of the grant and can be paid. */
  function Payable(wallets: Wallets, users: seq<Text>, calls: seq<Calls>, grant: u64): nat
    requires |users| == |calls|
  {
    if users == [] then 0
    else
      var n := |users| - 1;
      Payable(wallets, users[..n], calls[..n], grant)
      + if calls[n].paid && Short(BalanceOf(wallets, users[n]), calls[n], grant) > 0 then 1 else 0
  }

  /** The gas of the payments that are attempted. */
  function Attempts(wallets: Wallets, users: seq<Text>, calls: seq<Calls>, grant: u64): nat
    requires |users| == |calls|
  {
    if users == [] then 0
    else
      var n := |users| - 1;
      Attempts(wallets, users[..n], calls[..n], grant)
      + if Short(BalanceOf(wallets, users[n]), calls[n], grant) > 0 then calls[n].fee else 0
  }

  lemma FundOnePays(p: Pass, user: Text, c: Calls, grant: u64)
    ensures var q := FundOne(p, user, c, grant);
            var before := BalanceOf(p.wallets, user);
            && BalanceOf(q.wallets, user) == before + Due(before, c, grant)
            && (forall u :: u != user ==> BalanceOf(q.wallets, u) == BalanceOf(p.wallets, u))
            && (forall u :: u != user ==> (u in q.wallets <==> u in p.wallets))
            && q.spent == p.spent + Due(before, c, grant)
            && q.funded == p.funded + (if c.paid && Short(before, c, grant) > 0 then 1 else 0)
            && q.fees == p.fees + if Short(before, c, grant) > 0 then c.fee else 0
  {
  }

  /** Whoever is not in the list, or whose payments all fail, has what it had. */
  lemma {:induction false} UnpaidIsUntouched(wallets: Wallets, users: seq<Text>, calls: seq<Calls>, grant: u64, u: Text)
    requires |users| == |calls| && forall i :: 0 <= i < |users| && users[i] == u ==> !calls[i].paid
    ensures BalanceOf(FundAll(wallets, users, calls, grant).wallets, u) == BalanceOf(wallets, u)
    ensures u !in users ==> (u in FundAll(wallets, users, calls, grant).wallets <==> u in wallets)
  {
    if users != [] {
      var n := |users| - 1;
      assert users == users[..n] + [users[n]];
      UnpaidIsUntouched(wallets, users[..n], calls[..n], grant, u);
      FundOnePays(FundAll(wallets, users[..n], calls[..n], grant), users[n], calls[n], grant);
      hide FundOne, BalanceOf;
    }
  }

  /** User `i` is seen short of the grant when its turn comes, and its payment succeeds. */
  predicate PaidAt(wallets: Wallets, users: seq<Text>, calls: seq<Calls>, grant: u64, i: nat)
    requires i < |users| == |calls|
  {
    var now := FundAll(wallets, users[..i], calls[..i], grant).wallets;
    calls[i].paid && Short(BalanceOf(now, users[i]), calls[i], grant) > 0
  }

  /** The turns at which a payment succeeds. */
  function PaidTurns(wallets: Wallets, users: seq<Text>, calls: seq<Calls>, grant: u64): set<nat>
    requires |users| == |calls|
  {
    set i: nat | i < |users| && PaidAt(wallets, users, calls, grant, i)
  }

  lemma PaidInPrefix(wallets: Wallets, users: seq<Text>, calls: seq<Calls>, grant: u64, n: nat, i: nat)
    requires i < n <= |users| == |calls|
    ensures PaidAt(wallets, users[..n], calls[..n], grant, i) <==> PaidAt(wallets, users, calls, grant, i)
  {
    hide FundAll, Short, BalanceOf;
    assert users[..n][..i] == users[..i] && calls[..n][..i] == calls[..i];
  }

  lemma TurnsGrow(wallets: Wallets, users: seq<Text>, calls: seq<Calls>, grant: u64, n: nat)
    requires |users| == |calls| == n + 1
    ensures |PaidTurns(wallets, users, calls, grant)|
         == |PaidTurns(wallets, users[..n], calls[..n], grant)|
            + if PaidAt(wallets, users, calls, grant, n) then 1 else 0
  {
    forall i: nat | i < n { PaidInPrefix(wallets, users, calls, grant, n, i); }
    hide PaidAt;
    var before := PaidTurns(wallets, users[..n], calls[..n], grant);
    assert n !in before;
    assert PaidTurns(wallets, users, calls, grant)
        == if PaidAt(wallets, users, calls, grant, n) then before + {n} else before;
  }

  /** Whoever is listed how often, the pass counts the payments that succeeded. */
  lemma {:induction false} FundedAreThePaid(wallets: Wallets, users: seq<Text>, calls: seq<Calls>, grant: u64)
    requires |users| == |calls|
    ensures FundAll(wallets, users, calls, grant).funded == |PaidTurns(wallets, users, calls, grant)|
  {
    hide FundOne, Short, BalanceOf;
    if users != [] {
      var n := |users| - 1;
      FundedAreThePaid(wallets, users[..n], calls[..n], grant);
      FundOnePays(FundAll(wallets, users[..n], calls[..n], grant), users[n], calls[n], grant);
      TurnsGrow(wallets, users, calls, grant, n);
      hide PaidTurns;
    }
  }

  /**
   What a pass over distinct users does, call by call: each wallet gains exactly what is due to it, and
   the pass counts the payments, their amounts and the gas of all attempts.
   */
  lemma {:induction false} PassPaysWhatIsDue(wallets: Wallets, users: seq<Text>, calls: seq<Calls>, grant: u64)
    requires |users| == |calls| && Distinct(users)
    ensures var p := FundAll(wallets, users, calls, grant);
            && (forall i :: 0 <= i < |users| ==>
                  var before := BalanceOf(wallets, users[i]);
                  BalanceOf(p.wallets, users[i]) == before + Due(before, calls[i], grant))
            && p.spent == Dues(wallets, users, calls, grant)
            && p.funded == Payable(wallets, users, calls, grant)
            && p.fees == Attempts(wallets, users, calls, grant)
  {
    if users != [] {
      var n := |users| - 1;
      PassPaysWhatIsDue(wallets, users[..n], calls[..n], grant);
      UnpaidIsUntouched(wallets, users[..n], calls[..n], grant, users[n]);
      var p := FundAll(wallets, users[..n], calls[..n], grant);
      FundOnePays(p, users[n], calls[n], grant);
      assert FundAll(wallets, users, calls, grant) == FundOne(p, users[n], calls[n], grant);
      hide FundOne, FundAll, BalanceOf, Due, Short;
      forall i | 0 <= i < n
        ensures var before, q := BalanceOf(wallets, users[i]), FundOne(p, users[n], calls[n], grant);
                BalanceOf(q.wallets, users[i]) == before + Due(before, calls[i], grant)
      {
        assert users[..n][i] == users[i] && calls[..n][i] == calls[i];
      }
    }
  }

  function Shortfalls(wallets: Wallets, users: seq<Text>, grant: u64): nat {
    if users == [] then 0
    else
      var n := |users| - 1;
      var before := BalanceOf(wallets, users[n]);
      Shortfalls(wallets, users[..n], grant) + if before < grant then grant - before else 0
  }

  lemma {:induction false} DuesAreShortfalls(wallets: Wallets, users: seq<Text>, calls: seq<Calls>, grant: u64)
    requires |users| == |calls| && AllPaid(calls) && AllRead(calls)
    ensures Dues(wallets, users, calls, grant) == Shortfalls(wallets, users, grant)
  {
    if users != [] {
      var n := |users| - 1;
      assert calls[n] in calls && forall c <- calls[..n] :: c in calls;
      DuesAreShortfalls(wallets, users[..n], calls[..n], grant);
    }
  }

  /**
   When all calls succeed, each of the distinct users ends with the higher of what it had and the
   grant, nobody else's wallet changes, and the operator spends exactly what the users were short of.
   */
  lemma PaidPassTopsUp(wallets: Wallets, users: seq<Text>, calls: seq<Calls>, grant: u64)
    requires |users| == |calls| && Distinct(users) && AllPaid(calls) && AllRead(calls)
    ensures var p := FundAll(wallets, users, calls, grant);
            && (forall u <- users ::
                  var before := BalanceOf(wallets, u);
                  BalanceOf(p.wallets, u) == if before < grant then grant else before)
            && (forall u :: u !in users ==> BalanceOf(p.wallets, u) == BalanceOf(wallets, u))
            && p.spent == Shortfalls(wallets, users, grant)
  {
    hide FundAll, BalanceOf;
    PassPaysWhatIsDue(wallets, users, calls, grant);
    DuesAreShortfalls(wallets, users, calls, grant);
    assert forall i :: 0 <= i < |users| ==> calls[i] in calls;
    forall u | u !in users
      ensures BalanceOf(FundAll(wallets, users, calls, grant).wallets, u) == BalanceOf(wallets, u)
    {
      UnpaidIsUntouched(wallets, users, calls, grant, u);
    }
  }

  /** What the accounts hold together. */
  function Total(wallets: Wallets, accounts: seq<Text>): nat {
    if accounts == [] then 0
    else Total(wallets, accounts[..|accounts| - 1]) + BalanceOf(wallets, accounts[|accounts| - 1])
  }

  lemma {:induction false} OneGain(before: Wallets, after: Wallets, accounts: seq<Text>, user: Text, gain: nat)
    requires Distinct(accounts) && BalanceOf(after, user) == BalanceOf(before, user) + gain
    requires forall u :: u != user ==> BalanceOf(after, u) == BalanceOf(before, u)
    ensures Total(after, accounts) == Total(before, accounts) + if user in accounts then gain else 0
  {
    hide BalanceOf;
    if accounts != [] {
      var n := |accounts| - 1;
      OneGain(before, after, accounts[..n], user, gain);
      assert accounts == accounts[..n] + [accounts[n]];
      assert accounts[n] !in accounts[..n];
    }
  }

  /** Whoever is listed how often and whatever fails, the wallets gain together exactly what is spent. */
  lemma {:induction false} WalletsGainWhatIsSpent(wallets: Wallets, users: seq<Text>, calls: seq<Calls>, grant: u64,
                                                  accounts: seq<Text>)
    requires |users| == |calls| && Distinct(accounts) && forall u <- users :: u in accounts
    ensures var p := FundAll(wallets, users, calls, grant);
            Total(p.wallets, accounts) == Total(wallets, accounts) + p.spent
  {
    if users != [] {
      var n := |users| - 1;
      assert users[n] in users && forall u <- users[..n] :: u in users;
      WalletsGainWhatIsSpent(wallets, users[..n], calls[..n], grant, accounts);
      var p := FundAll(wallets, users[..n], calls[..n], grant);
      var q := FundOne(p, users[n], calls[n], grant);
      assert FundAll(wallets, users, calls, grant) == q;
      FundOnePays(p, users[n], calls[n], grant);
      hide FundOne, FundAll, BalanceOf, Total, Due;
      OneGain(p.wallets, q.wallets, accounts, users[n], Due(BalanceOf(p.wallets, users[n]), calls[n], grant));
    }
  }

  /**
   A pass whose balance reads succeed pays nothing and touches no wallet if everyone has the grant; if
   its payments succeed too, only then.
   */
  lemma {:induction false} IdlePassIff(wallets: Wallets, users: seq<Text>, calls: seq<Calls>, grant: u64)
    requires |users| == |calls| && AllRead(calls)
    ensures AllFunded(wallets, users, grant) ==> FundAll(wallets, users, calls, grant) == Pass(wallets, 0, 0, 0)
    ensures AllPaid(calls) && FundAll(wallets, users, calls, grant).spent == 0 ==> AllFunded(wallets, users, grant)
  {
    if users != [] {
      var n := |users| - 1;
      assert users[n] in users && forall u <- users[..n] :: u in users;
      assert calls[n] in calls && forall c <- calls[..n] :: c in calls;
      IdlePassIff(wallets, users[..n], calls[..n], grant);
      var p := FundAll(wallets, users[..n], calls[..n], grant);
      var q := FundOne(p, users[n], calls[n], grant);
      assert FundAll(wallets, users, calls, grant) == q;
      hide FundAll;
      assert users == users[..n] + [users[n]];
    }
  }

  /** After a pass whose payments all succeed, a pass that can read the balances pays nothing. */
  lemma SecondPassIsIdle(wallets: Wallets, users: seq<Text>, first: seq<Calls>, second: seq<Calls>, grant: u64)
    requires |users| == |first| == |second| && AllPaid(first) && AllRead(second)
    ensures var w := FundAll(wallets, users, first, grant).wallets;
            FundAll(w, users, second, grant) == Pass(w, 0, 0, 0)
  {
    hide FundAll;
    PaidPassFunds(wallets, users, first, grant);
    IdlePassIff(FundAll(wallets, users, first, grant).wallets, users, second, grant);
  }
}
