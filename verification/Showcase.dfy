/** The showcase's draws of investors from the cohort, and the split of a goal among those drawn. */
module Showcase {
  import opened Common
  import P = Paging

  // ------------------------------------------------------------------ draws

  /** The place in a cohort of `l` that pick `i` of a draw at this cursor takes. */
  function Place(cursor: nat, i: nat, l: nat): (place: nat)
    requires l > 0
    ensures place < l
  {
    (cursor % l + i) % l
  }

  function Drawn(cohort: seq<Text>, cursor: nat, n: nat): seq<Text>
    requires cohort != []
  {
    seq(n, i requires 0 <= i < n => cohort[Place(cursor, i, |cohort|)])
  }

  class Draws {
    const cohort: seq<Text>
    var cursor: nat

    constructor (cohort: seq<Text>)
      ensures this.cohort == cohort && cursor == 0
    {
      this.cohort := cohort;
      cursor := 0;
    }

    method TakeInvestors(n: nat) returns (out: seq<Text>)
      requires cohort != []
      modifies this
      ensures out == Drawn(cohort, old(cursor), n) && cursor == old(cursor) + n
    {
      var start := cursor % |cohort|;
      out := [];
      for i := 0 to n
        invariant out == Drawn(cohort, cursor, i)
      {
        out := out + [cohort[(start + i) % |cohort|]];
      }
      cursor := cursor + n;
    }
  }

  lemma {:induction false} ModShift(a: nat, q: nat, l: nat)
    requires l > 0
    ensures (a + q * l) % l == a % l
  {
    if q > 0 {
      ModShift(a, q - 1, l);
      assert a + q * l == (a + (q - 1) * l) + l;
      ModOnce(a + (q - 1) * l, l);
    }
  }

  lemma ModOnce(a: nat, l: nat)
    requires l > 0
    ensures (a + l) % l == a % l
  {
    assert a + l == (a / l + 1) * l + a % l;
    ModUnique(a + l, a / l + 1, a % l, l);
  }

  lemma ModUnique(a: nat, q: nat, r: nat, l: nat)
    requires l > 0 && r < l && a == q * l + r
    ensures a % l == r
  {
    var p := a / l;
    assert a == p * l + a % l;
    assert p < q ==> (p + 1) * l <= q * l;
    assert q < p ==> (q + 1) * l <= p * l;
  }

  function Rest(a: nat, l: nat): nat
    requires l > 0
  {
    a % l
  }

  lemma PlaceIsRest(a: nat, i: nat, l: nat)
    requires l > 0
    ensures Place(a, i, l) == Rest(a + i, l)
  {
    assert a + i == (a % l + i) + (a / l) * l;
    ModShift(a % l + i, a / l, l);
  }

  /** A draw starts at the cursor and goes round the cohort. */
  lemma DrawGoesRound(cohort: seq<Text>, cursor: nat, n: nat, i: nat)
    requires cohort != [] && i < n
    ensures |Drawn(cohort, cursor, n)| == n && Drawn(cohort, cursor, n)[i] == cohort[(cursor + i) % |cohort|]
  {
    PlaceIsRest(cursor, i, |cohort|);
  }

  lemma PlaceGoesOn(cursor: nat, m: nat, i: nat, l: nat)
    requires l > 0
    ensures Place(cursor + m, i, l) == Place(cursor, m + i, l)
  {
    hide Rest, Place;
    PlaceIsRest(cursor + m, i, l);
    PlaceIsRest(cursor, m + i, l);
  }

  /** Two draws in a row are one longer draw. */
  lemma DrawsJoin(cohort: seq<Text>, cursor: nat, m: nat, n: nat)
    requires cohort != []
    ensures Drawn(cohort, cursor, m) + Drawn(cohort, cursor + m, n) == Drawn(cohort, cursor, m + n)
  {
    hide Place;
    var b, all := Drawn(cohort, cursor + m, n), Drawn(cohort, cursor, m + n);
    forall i | 0 <= i < n ensures b[i] == all[m + i] {
      PlaceGoesOn(cursor, m, i, |cohort|);
    }
  }

  lemma SmallMod(r: nat, i: nat, l: nat)
    requires r < l && i <= l
    ensures (r + i) % l == if r + i < l then r + i else r + i - l
  {
    if r + i < l { ModUnique(r + i, 0, r + i, l); } else { ModUnique(r + i, 1, r + i - l, l); }
  }

  /** A draw repeats nobody if and only if it is no longer than the cohort. */
  lemma DrawIsDistinctIff(cohort: seq<Text>, cursor: nat, n: nat)
    requires cohort != [] && P.Distinct(cohort)
    ensures P.Distinct(Drawn(cohort, cursor, n)) <==> n <= |cohort|
  {
    var l := |cohort|;
    var r := cursor % l;
    var d := Drawn(cohort, cursor, n);
    if n <= l {
      forall i, k | 0 <= i < k < n ensures d[i] != d[k] {
        SmallMod(r, i, l);
        SmallMod(r, k, l);
      }
    } else {
      SmallMod(r, 0, l);
      SmallMod(r, l, l);
      assert d[0] == d[l];
    }
  }

  /** Consecutive draws share nobody, and repeat nobody, while they fit into the cohort together. */
  lemma ConsecutiveDrawsAreDisjoint(cohort: seq<Text>, cursor: nat, m: nat, n: nat)
    requires cohort != [] && P.Distinct(cohort) && m + n <= |cohort|
    ensures P.Distinct(Drawn(cohort, cursor, m) + Drawn(cohort, cursor + m, n))
    ensures forall x <- Drawn(cohort, cursor, m) :: x !in Drawn(cohort, cursor + m, n)
  {
    var a, b := Drawn(cohort, cursor, m), Drawn(cohort, cursor + m, n);
    DrawsJoin(cohort, cursor, m, n);
    DrawIsDistinctIff(cohort, cursor, m + n);
    hide Drawn;
    assert P.Distinct(a + b);
    forall x | x in a ensures x !in b {
      var i :| 0 <= i < |a| && a[i] == x;
      forall k | 0 <= k < |b| ensures b[k] != x { assert (a + b)[i] == x && (a + b)[|a| + k] == b[k]; }
    }
  }

  // ------------------------------------------------------------------ funding to a goal

  /** How an investor's contribution goes; it counts with or without a receipt. */
  datatype Contribution = Receipted(id: Text) | Unreceipted | Rejected

  /** What has been counted, whether the loop has stopped early, and who holds a receipt. */
  datatype Funding = Funding(funded: nat, stopped: bool, receipts: seq<(Text, Text)>)

  function Slice(goal: nat, n: nat, i: nat, funded: nat): nat
    requires i < n
  {
    if i + 1 == n then (if goal < funded then 0 else goal - funded) else goal / n
  }

  function Count(f: Funding, investor: Text, slice: nat, c: Contribution): Funding {
    if f.stopped || slice == 0 then f.(stopped := true)
    else
      match c
      case Receipted(id) => Funding(f.funded + slice, false, f.receipts + [(investor, id)])
      case Unreceipted => Funding(f.funded + slice, false, f.receipts)
      case Rejected => f
  }

  /** The state after the first `i` investors. */
  function Funded(goal: nat, investors: seq<Text>, answers: seq<Contribution>, i: nat): Funding
    requires i <= |investors| == |answers|
  {
    if i == 0 then Funding(0, false, [])
    else
      var f := Funded(goal, investors, answers, i - 1);
      Count(f, investors[i - 1], Slice(goal, |investors|, i - 1, f.funded), answers[i - 1])
  }

  method FundToGoal(goal: nat, investors: seq<Text>, answers: seq<Contribution>)
    returns (funded: nat, receipts: seq<(Text, Text)>)
    requires |investors| == |answers|
    ensures var f := Funded(goal, investors, answers, |investors|); funded == f.funded && receipts == f.receipts
  {
    funded, receipts := 0, [];
    for i := 0 to |investors|
      invariant Funded(goal, investors, answers, i) == Funding(funded, false, receipts)
    {
      var slice := if i + 1 == |investors| then (if goal < funded then 0 else goal - funded) else goal / |investors|;
      if slice == 0 {
        StoppedStays(goal, investors, answers, i + 1, |investors|);
        break;
      }
      match answers[i] {
        case Receipted(id) =>
          receipts := receipts + [(investors[i], id)];
          funded := funded + slice;
        case Unreceipted => funded := funded + slice;
        case Rejected =>
      }
    }
  }

  lemma {:induction false} StoppedStays(goal: nat, investors: seq<Text>, answers: seq<Contribution>, i: nat, k: nat)
    requires i <= k <= |investors| == |answers| && Funded(goal, investors, answers, i).stopped
    ensures Funded(goal, investors, answers, k) == Funded(goal, investors, answers, i)
  {
    if i < k { StoppedStays(goal, investors, answers, i, k - 1); }
  }

  /** How many of the first `i` contributions were not rejected. */
  function Accepted(answers: seq<Contribution>, i: nat): (n: nat)
    requires i <= |answers|
    ensures n <= i
  {
    if i == 0 then 0 else Accepted(answers, i - 1) + if answers[i - 1].Rejected? then 0 else 1
  }

  /** Before the last investor every accepted contribution counts one equal slice. */
  lemma {:induction false} EqualSlices(goal: nat, investors: seq<Text>, answers: seq<Contribution>, i: nat)
    requires i < |investors| == |answers|
    ensures var f := Funded(goal, investors, answers, i);
            f.funded == Accepted(answers, i) * (goal / |investors|) && (f.stopped <==> i > 0 && goal / |investors| == 0)
  {
    if i > 0 {
      EqualSlices(goal, investors, answers, i - 1);
      var each := goal / |investors|;
      assert (Accepted(answers, i - 1) + 1) * each == Accepted(answers, i - 1) * each + each;
    }
  }

  /** The receipts that were handed out for the first `i` contributions, each under its investor. */
  function Receipts(investors: seq<Text>, answers: seq<Contribution>, i: nat): seq<(Text, Text)>
    requires i <= |investors| == |answers|
  {
    if i == 0 then []
    else
      Receipts(investors, answers, i - 1)
      + match answers[i - 1] case Receipted(id) => [(investors[i - 1], id)] case _ => []
  }

  lemma {:induction false} ReceiptsSoFar(goal: nat, investors: seq<Text>, answers: seq<Contribution>, i: nat)
    requires i < |investors| == |answers|
    ensures Funded(goal, investors, answers, i).receipts
         == if goal / |investors| == 0 then [] else Receipts(investors, answers, i)
  {
    if i > 0 {
      ReceiptsSoFar(goal, investors, answers, i - 1);
      EqualSlices(goal, investors, answers, i - 1);
      var f := Funded(goal, investors, answers, i - 1);
      assert f.receipts + [] == f.receipts;
    }
  }

  /** In the end everyone whose contribution was receipted is listed, in order, unless no contribution was tried. */
  lemma ReceiptsAreComplete(goal: nat, investors: seq<Text>, answers: seq<Contribution>)
    requires |investors| == |answers|
    ensures Funded(goal, investors, answers, |investors|).receipts
         == if goal == 0 || (|investors| > 1 && goal < |investors|) then []
            else Receipts(investors, answers, |investors|)
  {
    var n := |investors|;
    if n > 0 {
      EqualSlices(goal, investors, answers, n - 1);
      ReceiptsSoFar(goal, investors, answers, n - 1);
      SlicesLeaveRoom(goal, n, Accepted(answers, n - 1));
      UnitEach(goal, n);
      var f := Funded(goal, investors, answers, n - 1);
      assert f.receipts + [] == f.receipts;
      assert n == 1 ==> Receipts(investors, answers, 0) == [];
    }
  }

  lemma SlicesLeaveRoom(goal: nat, n: nat, k: nat)
    requires k < n
    ensures k * (goal / n) <= goal && (goal > 0 ==> k * (goal / n) < goal)
  {
    var each := goal / n;
    assert goal == each * n + goal % n;
    assert n * each == k * each + (n - k) * each;
  }

  /**
   The counted total never exceeds the goal, whoever fails. It reaches the goal if and only if there
   was nothing to fund, or the last contribution succeeds and is tried: it is alone, or the goal has a
   unit for each investor.
   */
  lemma FundedNeverExceedsAndReachesIff(goal: nat, investors: seq<Text>, answers: seq<Contribution>)
    requires |investors| == |answers|
    ensures var n := |investors|; var total := Funded(goal, investors, answers, n).funded;
            && total <= goal
            && (total == goal <==> goal == 0 || (n > 0 && !answers[n - 1].Rejected? && (n == 1 || goal >= n)))
            && (n > 1 && goal < n ==> total == 0)
            && (n > 1 && answers[n - 1].Rejected? ==> total == Accepted(answers, n - 1) * (goal / n))
  {
    var n := |investors|;
    if n > 0 {
      EqualSlices(goal, investors, answers, n - 1);
      SlicesLeaveRoom(goal, n, Accepted(answers, n - 1));
      UnitEach(goal, n);
    }
  }

  lemma UnitEach(goal: nat, n: nat)
    requires n > 0
    ensures goal / n == 0 <==> goal < n
  {
    assert goal == (goal / n) * n + goal % n;
  }
}
