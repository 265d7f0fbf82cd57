/**
 A raise's milestone schedule, from the Move literals the bot writes to the rows the indexer stores.
 Deadlines are computed in wrapping 64-bit arithmetic.
 */
module TrancheSchedule {
  import opened Common
  import opened Decimal
  import S = Separated

  const COMMA: byte := 44
  const CLOSE: byte := 93
  const VECTOR_OPEN: Text := [118, 101, 99, 116, 111, 114, 91] // "vector["
  const VECTOR_CLOSE: Text := [CLOSE] // "]"
  const U64_SUFFIX: Text := [117, 54, 52] // "u64"
  const U8_SUFFIX: Text := [117, 56] // "u8"

  // ------------------------------------------------------------------ literals

  function Number(n: nat, suffix: Text): Text {
    Digits(n) + suffix
  }

  function Numbers(values: seq<nat>, suffix: Text): seq<Text> {
    seq(|values|, i requires 0 <= i < |values| => Number(values[i], suffix))
  }

  function Vector(items: seq<Text>): Text {
    VECTOR_OPEN + S.Join(COMMA, items) + VECTOR_CLOSE
  }

  /** `vector[72u8,105u8]`, and `vector[]` for no bytes. */
  function BytesLiteral(bytes: seq<byte>): Text {
    Vector(Numbers(bytes, U8_SUFFIX))
  }

  function BytesLiterals(texts: seq<Text>): seq<Text> {
    seq(|texts|, i requires 0 <= i < |texts| => BytesLiteral(texts[i]))
  }

  /** A vector of byte vectors: `vector[vector[72u8,105u8],vector[72u8]]`. */
  function TextsLiteral(texts: seq<Text>): Text {
    Vector(BytesLiterals(texts))
  }

  lemma SmallDigits()
    ensures Digits(72) == [55, 50] && Digits(105) == [49, 48, 53] && Digits(7) == [55]
  {
    assert Digits(10) == [49, 48];
  }

  lemma JoinTwo(a: Text, b: Text)
    ensures S.Join(COMMA, [a, b]) == a + [COMMA] + b && S.Join(COMMA, [a]) == a && S.Join(COMMA, []) == []
  {
    assert [a, b][..1] == [a];
  }

  /** The literals as they are spelled. */
  lemma LiteralsAreSpelled()
    ensures Spells(BytesLiteral([72, 105]), "vector[72u8,105u8]") && Spells(BytesLiteral([]), "vector[]")
    ensures Spells(Vector(Numbers([7, 72], U64_SUFFIX)), "vector[7u64,72u64]")
    ensures Spells(TextsLiteral([[72], []]), "vector[vector[72u8],vector[]]")
  {
    hide Spells, BytesLiteral, TextsLiteral, Vector, Numbers;
    BytesAreSpelled();
    NumbersAreSpelled();
    TextsAreSpelled();
  }

  lemma BytesAreSpelled()
    ensures Spells(BytesLiteral([72, 105]), "vector[72u8,105u8]") && Spells(BytesLiteral([]), "vector[]")
  {
    BytesAreWritten();
    hide BytesLiteral;
  }

  lemma BytesAreWritten()
    ensures BytesLiteral([72, 105])
         == [118, 101, 99, 116, 111, 114, 91, 55, 50, 117, 56, 44, 49, 48, 53, 117, 56, 93]
    ensures BytesLiteral([72]) == [118, 101, 99, 116, 111, 114, 91, 55, 50, 117, 56, 93]
    ensures BytesLiteral([]) == [118, 101, 99, 116, 111, 114, 91, 93]
  {
    hide Digits, S.Join;
    SmallDigits();
    var a, b := Number(72, U8_SUFFIX), Number(105, U8_SUFFIX);
    assert a == [55, 50, 117, 56] && b == [49, 48, 53, 117, 56];
    JoinTwo(a, b);
    assert Numbers([72, 105], U8_SUFFIX) == [a, b] && Numbers([72], U8_SUFFIX) == [a] && Numbers([], U8_SUFFIX) == [];
  }

  lemma NumbersAreSpelled()
    ensures Spells(Vector(Numbers([7, 72], U64_SUFFIX)), "vector[7u64,72u64]")
  {
    hide Digits, S.Join;
    SmallDigits();
    var a, b := Number(7, U64_SUFFIX), Number(72, U64_SUFFIX);
    assert a == [55, 117, 54, 52] && b == [55, 50, 117, 54, 52];
    JoinTwo(a, b);
    assert Numbers([7, 72], U64_SUFFIX) == [a, b];
  }

  lemma TextsAreSpelled()
    ensures Spells(TextsLiteral([[72], []]), "vector[vector[72u8],vector[]]")
  {
    TextsAreWritten();
    hide TextsLiteral;
  }

  lemma TextsAreWritten()
    ensures TextsLiteral([[72], []])
         == [118, 101, 99, 116, 111, 114, 91, 118, 101, 99, 116, 111, 114, 91, 55, 50, 117, 56, 93]
            + [44, 118, 101, 99, 116, 111, 114, 91, 93, 93]
  {
    BytesAreWritten();
    hide Digits, S.Join, BytesLiteral;
    JoinTwo(BytesLiteral([72]), BytesLiteral([]));
    assert BytesLiterals([[72], []]) == [BytesLiteral([72]), BytesLiteral([])];
  }

  // ------------------------------------------------------------------ reading a literal back

  function ParseNumber(t: Text, suffix: Text, limit: nat): Option<nat> {
    var n := |t| - |suffix|;
    if n < 0 || t[n..] != suffix then None
    else
      match ParseDigits(t[..n])
      case None => None
      case Some(v) => if v < limit then Some(v) else None
  }

  function ParseNumbers(items: seq<Text>, suffix: Text, limit: nat): Option<seq<nat>> {
    if items == [] then Some([])
    else
      match (ParseNumbers(items[..|items| - 1], suffix, limit), ParseNumber(items[|items| - 1], suffix, limit))
      case (Some(vs), Some(v)) => Some(vs + [v])
      case _ => None
  }

  function ParseVector(t: Text, suffix: Text, limit: nat): Option<seq<nat>> {
    var n := |t| - |VECTOR_CLOSE|;
    if n < |VECTOR_OPEN| || t[..|VECTOR_OPEN|] != VECTOR_OPEN || t[n..] != VECTOR_CLOSE then None
    else
      var body := t[|VECTOR_OPEN|..n];
      if body == [] then Some([]) else ParseNumbers(S.Split(COMMA, body), suffix, limit)
  }

  lemma NumberParses(v: nat, suffix: Text, limit: nat)
    requires COMMA !in suffix
    ensures ParseNumber(Number(v, suffix), suffix, limit) == if v < limit then Some(v) else None
    ensures COMMA !in Number(v, suffix) && Number(v, suffix) != []
  {
    DigitsParse(v);
    var t := Number(v, suffix);
    assert t[..|Digits(v)|] == Digits(v) && t[|Digits(v)|..] == suffix;
  }

  lemma {:induction false} NumbersParse(values: seq<nat>, suffix: Text, limit: nat)
    requires COMMA !in suffix && forall v <- values :: v < limit
    ensures ParseNumbers(Numbers(values, suffix), suffix, limit) == Some(values)
  {
    if values != [] {
      var n := |values| - 1;
      assert values[n] in values && forall v <- values[..n] :: v in values;
      NumbersParse(values[..n], suffix, limit);
      NumberParses(values[n], suffix, limit);
      assert Numbers(values, suffix)[..n] == Numbers(values[..n], suffix);
      assert values == values[..n] + [values[n]];
    }
  }

  lemma JoinIsEmptyIff(items: seq<Text>)
    requires items != [] && forall t <- items :: t != []
    ensures S.Join(COMMA, items) != []
  {
    assert items[0] in items;
  }

  /** A vector literal reads back as the numbers it was written from. */
  lemma VectorParses(values: seq<nat>, suffix: Text, limit: nat)
    requires COMMA !in suffix && forall v <- values :: v < limit
    ensures ParseVector(Vector(Numbers(values, suffix)), suffix, limit) == Some(values)
  {
    var items := Numbers(values, suffix);
    var t := Vector(items);
    var body := S.Join(COMMA, items);
    var n := |VECTOR_OPEN|;
    assert t[..n] == VECTOR_OPEN && t[n..|t| - 1] == body && t[|t| - 1..] == VECTOR_CLOSE;
    if values != [] {
      forall item | item in items ensures COMMA !in item && item != [] {
        var i :| 0 <= i < |items| && items[i] == item;
        assert values[i] in values;
        NumberParses(values[i], suffix, limit);
      }
      JoinIsEmptyIff(items);
      S.SplitJoin(COMMA, items);
      NumbersParse(values, suffix, limit);
    }
  }

  /** So does the byte-vector literal that every text argument is written as. */
  lemma BytesLiteralParses(bytes: seq<byte>)
    ensures ParseVector(BytesLiteral(bytes), U8_SUFFIX, 256) == Some(bytes)
  {
    hide Vector, Numbers, ParseVector;
    VectorParses(bytes, U8_SUFFIX, 256);
  }

  // ------------------------------------------------------------------ reading a nested literal back

  /** One inner literal, cut before its closing bracket; all but the first still have their comma. */
  function ParsePiece(piece: Text, first: bool): Option<seq<nat>> {
    if first then ParseVector(piece + VECTOR_CLOSE, U8_SUFFIX, 256)
    else if piece == [] || piece[0] != COMMA then None
    else ParseVector(piece[1..] + VECTOR_CLOSE, U8_SUFFIX, 256)
  }

  function Extended(ts: Option<seq<seq<nat>>>, t: Option<seq<nat>>): Option<seq<seq<nat>>> {
    match (ts, t)
    case (Some(front), Some(last)) => Some(front + [last])
    case _ => None
  }

  function ParsePieces(pieces: seq<Text>): Option<seq<seq<nat>>> {
    if pieces == [] then Some([])
    else
      var n := |pieces| - 1;
      Extended(ParsePieces(pieces[..n]), ParsePiece(pieces[n], n == 0))
  }

  /** The body is cut at its closing brackets, so nothing may follow the last one. */
  function ParseTexts(t: Text): Option<seq<seq<nat>>> {
    var n := |t| - |VECTOR_CLOSE|;
    if n < |VECTOR_OPEN| || t[..|VECTOR_OPEN|] != VECTOR_OPEN || t[n..] != VECTOR_CLOSE then None
    else
      var body := t[|VECTOR_OPEN|..n];
      var pieces := S.Split(CLOSE, body);
      if pieces[|pieces| - 1] != [] then None else ParsePieces(pieces[..|pieces| - 1])
  }

  function OpenLiteral(bytes: seq<byte>): Text {
    VECTOR_OPEN + S.Join(COMMA, Numbers(bytes, U8_SUFFIX))
  }

  function Piece(bytes: seq<byte>, first: bool): Text {
    if first then OpenLiteral(bytes) else [COMMA] + OpenLiteral(bytes)
  }

  function Pieces(texts: seq<Text>): seq<Text> {
    seq(|texts|, i requires 0 <= i < |texts| => Piece(texts[i], i == 0))
  }

  lemma {:induction false} JoinIsFree(items: seq<Text>, c: byte)
    requires c != COMMA && forall t <- items :: c !in t
    ensures c !in S.Join(COMMA, items)
  {
    if items != [] {
      var n := |items| - 1;
      assert items[n] in items && forall t <- items[..n] :: t in items;
      JoinIsFree(items[..n], c);
    }
  }

  lemma OpenIsFree(bytes: seq<byte>)
    ensures CLOSE !in OpenLiteral(bytes)
  {
    var items := Numbers(bytes, U8_SUFFIX);
    forall t | t in items ensures CLOSE !in t {
      var i :| 0 <= i < |items| && items[i] == t;
      DigitsParse(bytes[i]);
    }
    JoinIsFree(items, CLOSE);
  }

  lemma PieceIsFree(bytes: seq<byte>, first: bool)
    ensures CLOSE !in Piece(bytes, first)
  {
    OpenIsFree(bytes);
    hide OpenLiteral;
  }

  lemma PieceParses(bytes: seq<byte>, first: bool)
    ensures ParsePiece(Piece(bytes, first), first) == Some(bytes)
  {
    BytesLiteralParses(bytes);
    hide ParseVector, S.Join, Numbers;
    assert ([COMMA] + OpenLiteral(bytes))[1..] == OpenLiteral(bytes);
  }

  lemma OneMoreText(texts: seq<Text>, n: nat)
    requires n + 1 == |texts|
    ensures Pieces(texts) == Pieces(texts[..n]) + [Piece(texts[n], n == 0)] && |Pieces(texts[..n])| == n
    ensures BytesLiterals(texts) == BytesLiterals(texts[..n]) + [BytesLiteral(texts[n])]
    ensures |BytesLiterals(texts[..n])| == n
  {
    hide Piece, BytesLiteral;
  }

  lemma ParseOneMore(front: seq<Text>, last: Text)
    ensures ParsePieces(front + [last]) == Extended(ParsePieces(front), ParsePiece(last, front == []))
  {
    hide ParsePiece, Extended;
    assert (front + [last])[..|front|] == front;
  }

  lemma ExtendedBoth(front: seq<Text>, last: Text)
    ensures Extended(Some(front), Some(last)) == Some(front + [last])
  {
  }

  lemma {:induction false} PiecesParse(texts: seq<Text>)
    ensures ParsePieces(Pieces(texts)) == Some(texts)
  {
    if texts == [] {
      assert Pieces(texts) == [];
    } else {
      hide *;
      var front, last := texts[..|texts| - 1], texts[|texts| - 1];
      assert texts == front + [last];
      PiecesParse(front);
      PieceParses(last, front == []);
      OneMoreText(texts, |front|);
      ParseOneMore(Pieces(front), Piece(last, front == []));
      ExtendedBoth(front, last);
    }
  }

  /** A stretch without a closing bracket, then one: the split gains the stretch as its last piece but one. */
  lemma SplitClosed(body: Text, parts: seq<Text>, t: Text)
    requires S.Split(CLOSE, body) == parts + [[]] && CLOSE !in t
    ensures S.Split(CLOSE, body + (t + [CLOSE])) == parts + [t] + [[]]
  {
    hide S.Split;
    S.SplitAppend(CLOSE, body, t);
    S.SplitSeparator(CLOSE, body + t);
    assert body + (t + [CLOSE]) == body + t + [CLOSE];
    assert (parts + [[]])[..|parts|] == parts && [] + t == t;
  }

  lemma {:induction false} SplitsIntoPieces(texts: seq<Text>)
    ensures S.Split(CLOSE, S.Join(COMMA, BytesLiterals(texts))) == Pieces(texts) + [[]]
  {
    if texts == [] {
      assert Pieces(texts) == [] && BytesLiterals(texts) == [];
    } else {
      var n := |texts| - 1;
      hide *;
      SplitsIntoPieces(texts[..n]);
      OneMoreText(texts, n);
      PieceIsFree(texts[n], n == 0);
      JoinClosed(BytesLiterals(texts[..n]), texts[n]);
      SplitClosed(S.Join(COMMA, BytesLiterals(texts[..n])), Pieces(texts[..n]), Piece(texts[n], n == 0));
    }
  }

  lemma JoinClosed(front: seq<Text>, last: Text)
    ensures S.Join(COMMA, front + [BytesLiteral(last)])
         == S.Join(COMMA, front) + (Piece(last, front == []) + [CLOSE])
  {
    var open := OpenLiteral(last);
    if front == [] {
      assert front + [BytesLiteral(last)] == [BytesLiteral(last)];
      assert S.Join(COMMA, front) == [] && [] + (open + [CLOSE]) == open + [CLOSE];
    } else {
      S.JoinOne(COMMA, front, BytesLiteral(last));
      hide S.Join;
      assert S.Join(COMMA, front) + [COMMA] + (open + [CLOSE]) == S.Join(COMMA, front) + ([COMMA] + open + [CLOSE]);
    }
  }

  /** The nested literal reads back as the texts it was written from. */
  lemma TextsParse(texts: seq<Text>)
    ensures ParseTexts(TextsLiteral(texts)) == Some(texts)
  {
    SplitsIntoPieces(texts);
    PiecesParse(texts);
    hide S.Split, S.Join, BytesLiterals, Pieces, ParsePieces;
    var t, n := TextsLiteral(texts), |VECTOR_OPEN|;
    assert t[..n] == VECTOR_OPEN && t[|t| - 1..] == VECTOR_CLOSE;
    assert t[n..|t| - 1] == S.Join(COMMA, BytesLiterals(texts));
    assert (Pieces(texts) + [[]])[..|Pieces(texts)|] == Pieces(texts);
  }

  // ------------------------------------------------------------------ products

  function Times(k: nat, each: nat): nat {
    k * each
  }

  lemma TimesSum(a: nat, b: nat, each: nat)
    ensures Times(a + b, each) == Times(a, each) + Times(b, each)
  {
  }

  lemma TimesOne(each: nat)
    ensures Times(1, each) == each && Times(0, each) == 0
  {
  }

  lemma TimesPositive(k: nat, each: nat)
    requires k > 0
    ensures Times(k, each) >= each
  {
  }

  function Base(goal: nat, n: nat): nat
    requires n > 0
  {
    goal / n
  }

  lemma BaseDivides(goal: nat, n: nat)
    requires n > 0
    ensures Times(n, Base(goal, n)) <= goal && (Base(goal, n) > 0 <==> goal >= n)
  {
    assert goal == n * (goal / n) + goal % n;
  }

  function Wrapped(v: nat): u64 {
    v % TWO_64
  }

  lemma WrappedSmall(v: nat)
    ensures v < TWO_64 ==> Wrapped(v) == v
  {
  }

  // ------------------------------------------------------------------ the schedule

  /** At least one tranche. */
  function Count(tranches: byte): nat {
    if tranches == 0 then 1 else tranches
  }

  /** What is left of the goal when all but the last tranche have taken the base. */
  function Remainder(goal: u64, n: nat): (r: nat)
    requires n > 0
    ensures r == goal - Times(n - 1, Base(goal, n)) && r >= Base(goal, n)
  {
    hide Times, Base;
    BaseDivides(goal, n);
    TimesSum(n - 1, 1, Base(goal, n));
    TimesOne(Base(goal, n));
    goal - Times(n - 1, Base(goal, n))
  }

  /** The last tranche absorbs the remainder. */
  function Amount(goal: u64, n: nat, i: nat): nat
    requires i < n
  {
    if i == n - 1 then Remainder(goal, n) else Base(goal, n)
  }

  function Deadline(fundingDeadline: u64, step: u64, i: nat): u64 {
    Wrapped(fundingDeadline + Times(i + 1, step))
  }

  function Amounts(goal: u64, n: nat): seq<nat> {
    seq(n, i requires 0 <= i < n => Amount(goal, n, i))
  }

  function Deadlines(fundingDeadline: u64, step: u64, n: nat): seq<nat> {
    seq(n, i requires 0 <= i < n => Deadline(fundingDeadline, step, i))
  }

  /** The three literals; `describe` holds the milestone texts. */
  method ScheduleLiterals(tranches: byte, goal: u64, fundingDeadline: u64, step: u64, describe: seq<Text>)
    returns (amountsLiteral: Text, descriptionsLiteral: Text, deadlinesLiteral: Text)
    requires if tranches == 0 then |describe| == 1 else |describe| == tranches as int
    ensures amountsLiteral == Vector(Numbers(Amounts(goal, |describe|), U64_SUFFIX))
    ensures deadlinesLiteral == Vector(Numbers(Deadlines(fundingDeadline, step, |describe|), U64_SUFFIX))
    ensures descriptionsLiteral == TextsLiteral(describe)
  {
    hide Times, Base, Wrapped, Remainder, Digits, S.Join;
    var n := Count(tranches);
    var base := Base(goal, n);
    var amounts: seq<Text> := [];
    var deadlines: seq<Text> := [];
    var descriptions: seq<Text> := [];
    for i := 0 to n
      invariant |amounts| == |descriptions| == |deadlines| == i
      invariant forall k :: 0 <= k < i ==> amounts[k] == Number(Amount(goal, n, k), U64_SUFFIX)
      invariant forall k :: 0 <= k < i ==> deadlines[k] == Number(Deadline(fundingDeadline, step, k), U64_SUFFIX)
      invariant forall k :: 0 <= k < i ==> descriptions[k] == BytesLiteral(describe[k])
    {
      var amount := if i == n - 1 then Remainder(goal, n) else base;
      amounts := amounts + [Number(amount, U64_SUFFIX)];
      descriptions := descriptions + [BytesLiteral(describe[i])];
      deadlines := deadlines + [Number(Wrapped(fundingDeadline + Times(i + 1, step)), U64_SUFFIX)];
    }
    assert amounts == Numbers(Amounts(goal, n), U64_SUFFIX);
    assert deadlines == Numbers(Deadlines(fundingDeadline, step, n), U64_SUFFIX);
    assert descriptions == BytesLiterals(describe);
    amountsLiteral := Vector(amounts);
    descriptionsLiteral := Vector(descriptions);
    deadlinesLiteral := Vector(deadlines);
  }

  // ------------------------------------------------------------------ what a schedule promises

  function Sum(values: seq<nat>): nat {
    if values == [] then 0 else Sum(values[..|values| - 1]) + values[|values| - 1]
  }

  lemma {:induction false} EqualSum(values: seq<nat>, each: nat)
    requires forall v <- values :: v == each
    ensures Sum(values) == Times(|values|, each)
  {
    hide Times;
    TimesOne(each);
    if values != [] {
      var n := |values| - 1;
      assert values[n] in values && forall v <- values[..n] :: v in values;
      EqualSum(values[..n], each);
      TimesSum(n, 1, each);
    }
  }

  /**
   All amounts but the last are the goal divided by their number, all together add up to the goal, and
   each is positive if and only if the goal has a unit for each.
   */
  lemma AmountsSplitTheGoal(goal: u64, n: nat)
    requires n > 0
    ensures forall i :: 0 <= i < n - 1 ==> Amounts(goal, n)[i] == goal / n
    ensures Sum(Amounts(goal, n)) == goal
    ensures (forall a <- Amounts(goal, n) :: a > 0) <==> goal >= n
  {
    assert Base(goal, n) == goal / n;
    hide Times, Base, Remainder;
    var amounts := Amounts(goal, n);
    var front := amounts[..n - 1];
    assert amounts == front + [Amount(goal, n, n - 1)];
    EqualSum(front, Base(goal, n));
    BaseDivides(goal, n);
    if goal >= n {
      forall a | a in amounts ensures a > 0 { var i :| 0 <= i < n && amounts[i] == a; }
    } else {
      TinyGoal(goal, n);
      assert amounts[0] in amounts;
    }
  }

  lemma TinyGoal(goal: u64, n: nat)
    requires goal < n
    ensures Amount(goal, n, 0) == 0
  {
    hide Times, Base;
    BaseDivides(goal, n);
    TimesOne(Base(goal, n));
  }

  predicate AscendingAfter(start: nat, s: seq<nat>) {
    && (forall i :: 0 <= i < |s| ==> s[i] > start)
    && (forall i, k :: 0 <= i < k < |s| ==> s[i] < s[k])
  }

  /** While the deadlines keep ascending none of them has wrapped. */
  lemma {:induction false} NoneWrapped(fundingDeadline: u64, step: u64, n: nat, i: nat)
    requires i < n && AscendingAfter(fundingDeadline, Deadlines(fundingDeadline, step, n))
    ensures Deadline(fundingDeadline, step, i) == fundingDeadline + Times(i + 1, step)
  {
    hide Times, Wrapped;
    var s := Deadlines(fundingDeadline, step, n);
    assert s[i] == Deadline(fundingDeadline, step, i);
    TimesOne(step);
    if i == 0 {
      OneStep(fundingDeadline, step);
    } else {
      NoneWrapped(fundingDeadline, step, n, i - 1);
      assert s[i - 1] < s[i];
      TimesSum(i, 1, step);
      OneStep(s[i - 1], step);
    }
  }

  lemma OneStep(d: u64, step: u64)
    ensures d < Wrapped(d + step) ==> Wrapped(d + step) == d + step
  {
  }

  /**
   Deadlines are strictly ascending and after the funding deadline if and only if the step is positive
   and the last one fits into 64 bits.
   */
  lemma DeadlinesAscendIff(fundingDeadline: u64, step: u64, n: nat)
    requires n > 0
    ensures AscendingAfter(fundingDeadline, Deadlines(fundingDeadline, step, n))
       <==> step > 0 && fundingDeadline + n * step < TWO_64
  {
    assert Times(n, step) == n * step;
    hide Times, Wrapped;
    if AscendingAfter(fundingDeadline, Deadlines(fundingDeadline, step, n)) {
      NoneWrapped(fundingDeadline, step, n, n - 1);
      NoneWrapped(fundingDeadline, step, n, 0);
      TimesOne(step);
      assert Deadlines(fundingDeadline, step, n)[0] > fundingDeadline;
    }
    if step > 0 && fundingDeadline + n * step < TWO_64 {
      FittingDeadlinesAscend(fundingDeadline, step, n);
    }
  }

  /** Each deadline is a step after the one before, in wrapping arithmetic. */
  lemma DeadlinesStep(fundingDeadline: u64, step: u64, n: nat, i: nat)
    requires i < n
    ensures var s := Deadlines(fundingDeadline, step, n);
            |s| == n && s[i] == ((if i == 0 then fundingDeadline else s[i - 1]) + step) % 0x1_0000_0000_0000_0000
  {
    TimesOne(step);
    if i > 0 {
      TimesSum(i, 1, step);
      WrapsOnce(fundingDeadline + Times(i, step), step);
    }
    hide Times;
  }

  lemma WrapsOnce(a: nat, b: nat)
    ensures (a % TWO_64 + b) % TWO_64 == (a + b) % TWO_64
  {
    var q := a / TWO_64;
    assert a == q * TWO_64 + a % TWO_64;
    assert a + b == (a % TWO_64 + b) + q * TWO_64;
  }

  lemma FittingDeadlinesAscend(fundingDeadline: u64, step: u64, n: nat)
    requires step > 0 && fundingDeadline + Times(n, step) < TWO_64
    ensures AscendingAfter(fundingDeadline, Deadlines(fundingDeadline, step, n))
  {
    hide Times, Wrapped;
    var s := Deadlines(fundingDeadline, step, n);
    forall i | 0 <= i < n ensures s[i] == fundingDeadline + Times(i + 1, step) {
      Fits(fundingDeadline, step, i, n);
    }
    forall i, k | 0 <= i < k < n ensures s[i] < s[k] {
      TimesSum(i + 1, k - i, step);
      TimesPositive(k - i, step);
    }
    forall i | 0 <= i < n ensures s[i] > fundingDeadline {
      TimesPositive(i + 1, step);
    }
  }

  lemma Fits(d: u64, step: u64, i: nat, n: nat)
    requires i < n && d + Times(n, step) < TWO_64
    ensures Deadline(d, step, i) == d + Times(i + 1, step)
  {
    hide Times, Wrapped;
    TimesSum(i + 1, n - i - 1, step);
    WrappedSmall(d + Times(i + 1, step));
  }

  // ------------------------------------------------------------------ the indexer's rows

  datatype TrancheRow = TrancheRow(index: int, amount: int, deadlineMs: int, description: Option<Text>)

  /** Empty text is NULL; text that is not UTF-8 is not part of this model. */
  function TextOrNull(bytes: Text): Option<Text> {
    if bytes == [] then None else Some(bytes)
  }

  /** `tranche_schedule`: by position, a missing deadline is 0 and a missing description is NULL. */
  function StoredSchedule(amounts: seq<u64>, deadlines: seq<u64>, descriptions: seq<Text>): seq<TrancheRow> {
    seq(|amounts|, i requires 0 <= i < |amounts| =>
      TrancheRow(i, AsI64(amounts[i]), if i < |deadlines| then AsI64(deadlines[i]) else 0,
                 if i < |descriptions| then TextOrNull(descriptions[i]) else None))
  }

  /** A row of the schedule, whatever the lengths of the event's vectors. */
  lemma StoredRow(amounts: seq<u64>, deadlines: seq<u64>, descriptions: seq<Text>, i: nat)
    requires i < |amounts|
    ensures var rows := StoredSchedule(amounts, deadlines, descriptions);
            && |rows| == |amounts| && rows[i].index == i && rows[i].amount == AsI64(amounts[i])
            && (i < |deadlines| ==> rows[i].deadlineMs == AsI64(deadlines[i]))
            && (i >= |deadlines| ==> rows[i].deadlineMs == 0)
            && (i < |descriptions| && descriptions[i] != [] ==> rows[i].description == Some(descriptions[i]))
            && (i >= |descriptions| || descriptions[i] == [] ==> rows[i].description == None)
  {
  }

  /** The rows as declared. */
  function DeclaredSchedule(amounts: seq<nat>, deadlines: seq<nat>, descriptions: seq<Text>): seq<TrancheRow>
    requires |amounts| == |deadlines| == |descriptions|
  {
    seq(|amounts|, i requires 0 <= i < |amounts| => TrancheRow(i, amounts[i], deadlines[i], Some(descriptions[i])))
  }

  /** The rows are the declared ones if and only if every value fits a signed 64-bit column. */
  lemma StoredIsDeclaredIff(amounts: seq<u64>, deadlines: seq<u64>, descriptions: seq<Text>)
    requires |amounts| == |deadlines| == |descriptions| && forall d <- descriptions :: d != []
    ensures StoredSchedule(amounts, deadlines, descriptions) == DeclaredSchedule(amounts, deadlines, descriptions)
       <==> forall i :: 0 <= i < |amounts| ==> amounts[i] <= I64_MAX && deadlines[i] <= I64_MAX
  {
    var stored := StoredSchedule(amounts, deadlines, descriptions);
    var declared := DeclaredSchedule(amounts, deadlines, descriptions);
    forall i | 0 <= i < |amounts|
      ensures stored[i] == declared[i] <==> amounts[i] <= I64_MAX && deadlines[i] <= I64_MAX
    {
      assert descriptions[i] in descriptions;
    }
    if stored == declared {
      forall i | 0 <= i < |amounts| ensures amounts[i] <= I64_MAX && deadlines[i] <= I64_MAX {
        assert stored[i] == declared[i];
      }
    }
  }

  /**
   From the literals to the rows: what the bot writes is read back as the vectors of the event, and the
   rows the indexer makes of them are, in order, the schedule the bot declared.
   */
  lemma ScheduleRoundTrip(goal: u64, fundingDeadline: u64, step: u64, descriptions: seq<Text>)
    requires descriptions != [] && forall d <- descriptions :: d != []
    requires goal <= I64_MAX && fundingDeadline + |descriptions| * step <= I64_MAX
    ensures var n := |descriptions|;
            var amounts := ParseVector(Vector(Numbers(Amounts(goal, n), U64_SUFFIX)), U64_SUFFIX, TWO_64);
            var deadlinesLiteral := Vector(Numbers(Deadlines(fundingDeadline, step, n), U64_SUFFIX));
            var deadlines := ParseVector(deadlinesLiteral, U64_SUFFIX, TWO_64);
            && amounts == Some(Amounts(goal, n)) && deadlines == Some(Deadlines(fundingDeadline, step, n))
            && ParseTexts(TextsLiteral(descriptions)) == Some(descriptions)
            && (forall a <- amounts.value :: a < TWO_64) && (forall d <- deadlines.value :: d < TWO_64)
            && StoredSchedule(amounts.value, deadlines.value, descriptions)
            == DeclaredSchedule(Amounts(goal, n), Deadlines(fundingDeadline, step, n), descriptions)
            && Sum(amounts.value) == goal
  {
    var n := |descriptions|;
    assert Times(n, step) == n * step;
    hide Times, Wrapped, Base, Remainder, ParseVector, ParseTexts, Vector, Numbers, StoredSchedule, DeclaredSchedule;
    var amounts, deadlines := Amounts(goal, n), Deadlines(fundingDeadline, step, n);
    forall i | 0 <= i < n ensures amounts[i] <= I64_MAX && deadlines[i] <= I64_MAX {
      AmountFits(goal, n, i);
      Fits(fundingDeadline, step, i, n);
      TimesSum(i + 1, n - i - 1, step);
    }
    assert forall a <- amounts :: a < TWO_64;
    assert forall d <- deadlines :: d < TWO_64;
    VectorParses(amounts, U64_SUFFIX, TWO_64);
    VectorParses(deadlines, U64_SUFFIX, TWO_64);
    TextsParse(descriptions);
    StoredIsDeclaredIff(amounts, deadlines, descriptions);
    AmountsSplitTheGoal(goal, n);
  }

  lemma AmountFits(goal: u64, n: nat, i: nat)
    requires i < n
    ensures Amount(goal, n, i) <= goal
  {
    hide Times, Base, Remainder;
    BaseDivides(goal, n);
    TimesPositive(n, Base(goal, n));
  }
}
