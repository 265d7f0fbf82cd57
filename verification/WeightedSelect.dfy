/** Weighted choice of the next action: one roll, taken down entry by entry. */
module WeightedSelect {
  import opened Common
  import opened Rng

  datatype Action =
    | Contribute | DepositRevenue | ClaimYield | ClaimShares | Finalize | TrancheCycle | WrapUnwrap | ListAsset
    | Stake | SweepRollover | Dispute | FlagDefault | Close | Governance | SweepCompensation | Redeem

  type Table = seq<(Action, nat)>

  const WEIGHTS: Table := [
    (Contribute, 10), (DepositRevenue, 7), (ClaimYield, 7), (ClaimShares, 5), (Finalize, 5), (TrancheCycle, 5),
    (WrapUnwrap, 5), (ListAsset, 4), (Stake, 3), (SweepRollover, 2), (Dispute, 2), (FlagDefault, 1), (Close, 1),
    (Governance, 1), (SweepCompensation, 1), (Redeem, 1)
  ]

  // ------------------------------------------------------------------ the loop

  function Total(table: Table): nat {
    if table == [] then 0 else Total(table[..|table| - 1]) + table[|table| - 1].1
  }

  /** The entry whose stretch of the rolls holds this one. */
  function Chosen(table: Table, roll: nat): Option<Action> {
    if table == [] then None
    else if roll < table[0].1 then Some(table[0].0)
    else Chosen(table[1..], roll - table[0].1)
  }

  /** `weight`: the first entry of an action, 0 without one. */
  function Weight(table: Table, a: Action): nat {
    if table == [] then 0 else if table[0].0 == a then table[0].1 else Weight(table[1..], a)
  }

  method SelectRoll(table: Table, start: nat) returns (a: Action)
    ensures a == match Chosen(table, start) case Some(x) => x case None => Contribute
  {
    var roll := start;
    for i := 0 to |table|
      invariant Chosen(table[i..], roll) == Chosen(table, start)
    {
      if roll < table[i].1 { return table[i].0; }
      roll := roll - table[i].1;
      assert table[i..][1..] == table[i + 1..];
    }
    return Contribute;
  }

  method Select(rng: Generator) returns (a: Action)
    modifies rng
    ensures rng.state == NextState(old(rng.state))
    ensures Chosen(WEIGHTS, Output(rng.state) % 60) == Some(a)
  {
    hide NextState, Output, Chosen;
    SixtyInAll();
    var roll := rng.Below(Total(WEIGHTS));
    a := SelectRoll(WEIGHTS, roll);
    AlwaysChosen(WEIGHTS, roll);
  }

  // ------------------------------------------------------------------ exactly its weight

  lemma {:induction false} TotalFromTheFront(table: Table)
    requires table != []
    ensures Total(table) == table[0].1 + Total(table[1..])
  {
    var n := |table| - 1;
    if n > 0 {
      TotalFromTheFront(table[..n]);
      assert table[..n][1..] == table[1..][..n - 1];
    } else {
      assert table[..0] == [] && table[1..] == [];
    }
  }

  /** The last entry takes the rolls that those before it leave over. */
  lemma {:induction false} ChosenFromTheEnd(front: Table, last: (Action, nat), roll: nat)
    ensures Chosen(front + [last], roll) == if roll < Total(front) then Chosen(front, roll)
                                            else if roll < Total(front) + last.1 then Some(last.0) else None
  {
    if front != [] {
      TotalFromTheFront(front);
      assert (front + [last])[1..] == front[1..] + [last];
      if roll >= front[0].1 { ChosenFromTheEnd(front[1..], last, roll - front[0].1); }
    }
  }

  /** The fallback is for rolls past the end only. */
  lemma {:induction false} AlwaysChosen(table: Table, roll: nat)
    ensures Chosen(table, roll).Some? <==> roll < Total(table)
  {
    if table != [] {
      var n := |table| - 1;
      assert table == table[..n] + [table[n]];
      ChosenFromTheEnd(table[..n], table[n], roll);
      AlwaysChosen(table[..n], roll);
    }
  }

  function Rolls(table: Table, a: Action): set<nat> {
    set roll: nat | roll < Total(table) && Chosen(table, roll) == Some(a)
  }

  /** The rolls from `lo` on, `n` of them. */
  function Stretch(lo: nat, n: nat): (s: set<nat>)
    ensures |s| == n && forall roll: nat :: roll in s <==> lo <= roll < lo + n
  {
    if n == 0 then {} else Stretch(lo, n - 1) + {lo + n - 1}
  }

  /** What all entries of an action weigh together. */
  function Share(table: Table, a: Action): nat {
    if table == [] then 0
    else
      var last := table[|table| - 1];
      Share(table[..|table| - 1], a) + if last.0 == a then last.1 else 0
  }

  /** For every table, an action is chosen by exactly as many rolls as its entries weigh together. */
  lemma {:induction false} RollsAreShares(table: Table, a: Action)
    ensures |Rolls(table, a)| == Share(table, a)
  {
    if table == [] {
      assert Rolls(table, a) == {};
    } else {
      var n := |table| - 1;
      RollsAreShares(table[..n], a);
      assert table == table[..n] + [table[n]];
      hide Rolls, Chosen, Total;
      RollsFromTheEnd(table[..n], table[n], a);
    }
  }

  /** The last entry brings its own stretch of rolls. */
  lemma RollsFromTheEnd(front: Table, last: (Action, nat), a: Action)
    ensures Rolls(front + [last], a)
         == Rolls(front, a) + if last.0 == a then Stretch(Total(front), last.1) else {}
    ensures Rolls(front, a) !! Stretch(Total(front), last.1)
  {
    hide *;
    TotalOneMore(front, last);
    forall roll: nat
      ensures roll in Rolls(front + [last], a)
         <==> roll in Rolls(front, a) || (last.0 == a && roll in Stretch(Total(front), last.1))
      ensures roll in Rolls(front, a) ==> roll < Total(front)
    {
      ChosenFromTheEnd(front, last, roll);
      InRolls(front, a, roll);
      InRolls(front + [last], a, roll);
    }
  }

  lemma InRolls(table: Table, a: Action, roll: nat)
    ensures roll in Rolls(table, a) <==> roll < Total(table) && Chosen(table, roll) == Some(a)
  {
    hide Chosen;
  }

  lemma TotalOneMore(front: Table, last: (Action, nat))
    ensures Total(front + [last]) == Total(front) + last.1
  {
    assert (front + [last])[..|front|] == front;
  }

  predicate DistinctActions(table: Table) {
    forall i, k :: 0 <= i < k < |table| ==> table[i].0 != table[k].0
  }

  lemma {:induction false} WeightFromTheEnd(front: Table, last: (Action, nat), a: Action)
    ensures Weight(front + [last], a)
         == if exists x <- front :: x.0 == a then Weight(front, a) else if last.0 == a then last.1 else 0
  {
    if front != [] {
      assert (front + [last])[1..] == front[1..] + [last];
      WeightFromTheEnd(front[1..], last, a);
      assert front == [front[0]] + front[1..];
      assert (exists x <- front :: x.0 == a) <==> front[0].0 == a || exists x <- front[1..] :: x.0 == a;
    }
  }

  lemma {:induction false} ShareIsWeight(table: Table, a: Action)
    requires DistinctActions(table)
    ensures Share(table, a) == Weight(table, a)
    ensures Share(table, a) > 0 ==> exists x <- table :: x.0 == a
  {
    if table != [] {
      var n := |table| - 1;
      ShareIsWeight(table[..n], a);
      assert table == table[..n] + [table[n]];
      WeightFromTheEnd(table[..n], table[n], a);
      assert table[n] in table;
      if table[n].0 == a { assert forall x <- table[..n] :: x.0 != a; }
    }
  }

  /** With distinct actions, exactly `weight(a)` of the rolls below the total choose `a`. */
  lemma ExactWeights(table: Table, a: Action)
    requires DistinctActions(table)
    ensures |Rolls(table, a)| == Weight(table, a)
  {
    RollsAreShares(table, a);
    ShareIsWeight(table, a);
  }

  // ------------------------------------------------------------------ the shipped table

  lemma TotalOfFour(table: Table, i: nat)
    requires i + 4 <= |table|
    ensures Total(table[..i + 4]) == Total(table[..i]) + table[i].1 + table[i + 1].1 + table[i + 2].1 + table[i + 3].1
  {
    TotalStep(table, i);
    TotalStep(table, i + 1);
    TotalStep(table, i + 2);
    TotalStep(table, i + 3);
    hide Total;
  }

  lemma TotalStep(table: Table, i: nat)
    requires i < |table|
    ensures Total(table[..i + 1]) == Total(table[..i]) + table[i].1
  {
    assert table[..i + 1][..i] == table[..i];
  }

  lemma SixtyInAll()
    ensures Total(WEIGHTS) == 60
  {
    var t := WEIGHTS;
    assert t[..0] == [] && t[..16] == t && Total([]) == 0;
    hide Total;
    TotalOfFour(t, 0);
    TotalOfFour(t, 4);
    TotalOfFour(t, 8);
    TotalOfFour(t, 12);
  }

  function Place(a: Action): nat {
    match a
    case Contribute => 0 case DepositRevenue => 1 case ClaimYield => 2 case ClaimShares => 3
    case Finalize => 4 case TrancheCycle => 5 case WrapUnwrap => 6 case ListAsset => 7
    case Stake => 8 case SweepRollover => 9 case Dispute => 10 case FlagDefault => 11
    case Close => 12 case Governance => 13 case SweepCompensation => 14 case Redeem => 15
  }

  lemma TableHasEveryAction(a: Action)
    ensures Place(a) < |WEIGHTS| && WEIGHTS[Place(a)].0 == a && WEIGHTS[Place(a)].1 > 0
  {
  }

  lemma TableNamesEachOnce(i: nat)
    requires i < |WEIGHTS|
    ensures Place(WEIGHTS[i].0) == i
  {
  }

  lemma {:induction false} WeightOfEntry(table: Table, i: nat)
    requires i < |table| && DistinctActions(table)
    ensures Weight(table, table[i].0) == table[i].1
  {
    if i > 0 {
      assert table[0].0 != table[i].0;
      WeightOfEntry(table[1..], i - 1);
    }
  }

  /** Every action can come up, as often in sixty as the table says. */
  lemma EveryActionComesUp(a: Action)
    ensures |Rolls(WEIGHTS, a)| == Weight(WEIGHTS, a)
    ensures Weight(WEIGHTS, a) ==
            match a
            case Contribute => 10 case DepositRevenue => 7 case ClaimYield => 7 case ClaimShares => 5
            case Finalize => 5 case TrancheCycle => 5 case WrapUnwrap => 5 case ListAsset => 4
            case Stake => 3 case SweepRollover => 2 case Dispute => 2 case _ => 1
  {
    hide Rolls, Weight, Place;
    var t := WEIGHTS;
    forall i | 0 <= i < |t| ensures Place(t[i].0) == i { TableNamesEachOnce(i); }
    assert DistinctActions(t);
    ExactWeights(t, a);
    TableHasEveryAction(a);
    WeightOfEntry(t, Place(a));
  }
}
