/** Texts joined by a separator byte, and split at it. */
module Separated {
  import opened Common

  function Join(sep: byte, parts: seq<Text>): Text {
    if parts == [] then []
    else if |parts| == 1 then parts[0]
    else Join(sep, parts[..|parts| - 1]) + [sep] + parts[|parts| - 1]
  }

  /** Always at least one part, like `str::split`. */
  function Split(sep: byte, s: Text): (parts: seq<Text>)
    ensures parts != []
  {
    if s == [] then [[]]
    else
      var parts := Split(sep, s[..|s| - 1]);
      var n := |parts| - 1;
      if s[|s| - 1] == sep then parts + [[]] else parts[..n] + [parts[n] + [s[|s| - 1]]]
  }

  lemma {:induction false} SplitAppend(sep: byte, s: Text, t: Text)
    requires sep !in t
    ensures var parts := Split(sep, s); var n := |parts| - 1;
            Split(sep, s + t) == parts[..n] + [parts[n] + t]
  {
    hide Split;
    var parts := Split(sep, s);
    var n := |parts| - 1;
    if t == [] {
      assert s + t == s && parts[n] + t == parts[n];
      assert parts == parts[..n] + [parts[n]];
    } else {
      var m := |t| - 1;
      SplitAppend(sep, s, t[..m]);
      SplitOther(sep, s + t[..m], t[m]);
      assert s + t == (s + t[..m]) + [t[m]];
      assert parts[n] + t == (parts[n] + t[..m]) + [t[m]];
    }
  }

  lemma SplitOther(sep: byte, s: Text, c: byte)
    requires c != sep
    ensures var parts := Split(sep, s); var n := |parts| - 1;
            Split(sep, s + [c]) == parts[..n] + [parts[n] + [c]]
  {
    assert (s + [c])[..|s|] == s;
  }

  lemma JoinOne(sep: byte, parts: seq<Text>, last: Text)
    requires parts != []
    ensures Join(sep, parts + [last]) == Join(sep, parts) + [sep] + last
  {
    assert (parts + [last])[..|parts|] == parts;
  }

  lemma SplitSeparator(sep: byte, s: Text)
    ensures Split(sep, s + [sep]) == Split(sep, s) + [[]]
  {
    assert (s + [sep])[..|s|] == s;
  }

  lemma SplitNext(sep: byte, s: Text, t: Text)
    requires sep !in t
    ensures Split(sep, s + [sep] + t) == Split(sep, s) + [t]
  {
    SplitSeparator(sep, s);
    SplitAppend(sep, s + [sep], t);
    hide Split;
    assert [] + t == t;
    assert (Split(sep, s) + [[]])[..|Split(sep, s)|] == Split(sep, s);
  }

  lemma {:induction false} SplitJoin(sep: byte, parts: seq<Text>)
    requires parts != [] && forall p <- parts :: sep !in p
    ensures Split(sep, Join(sep, parts)) == parts
  {
    var n := |parts| - 1;
    assert parts[n] in parts;
    if n == 0 {
      SplitAppend(sep, [], parts[0]);
      assert [] + parts[0] == parts[0];
    } else {
      hide Split, Join;
      SplitJoin(sep, parts[..n]);
      assert parts == parts[..n] + [parts[n]];
      JoinOne(sep, parts[..n], parts[n]);
      SplitNext(sep, Join(sep, parts[..n]), parts[n]);
    }
  }

  lemma {:induction false} PartsAreFree(sep: byte, s: Text)
    ensures forall p <- Split(sep, s) :: sep !in p
  {
    if s != [] {
      PartsAreFree(sep, s[..|s| - 1]);
      var parts := Split(sep, s[..|s| - 1]);
      assert parts[|parts| - 1] in parts;
    }
  }

  lemma {:induction false} JoinSplit(sep: byte, s: Text)
    ensures Join(sep, Split(sep, s)) == s
  {
    if s == [] {
      assert Join(sep, [[]]) == [];
    } else {
      hide Join;
      var m := |s| - 1;
      JoinSplit(sep, s[..m]);
      var parts := Split(sep, s[..m]);
      var n := |parts| - 1;
      if s[m] == sep {
        JoinOne(sep, parts, []);
        assert s == s[..m] + [sep] + [];
      } else {
        assert parts == parts[..n] + [parts[n]];
        JoinLonger(sep, parts[..n], parts[n], [s[m]]);
        assert s == s[..m] + [s[m]];
      }
    }
  }

  lemma JoinLonger(sep: byte, front: seq<Text>, x: Text, t: Text)
    ensures Join(sep, front + [x + t]) == Join(sep, front + [x]) + t
  {
    if front == [] {
      assert front + [x + t] == [x + t] && front + [x] == [x];
    } else {
      JoinOne(sep, front, x);
      JoinOne(sep, front, x + t);
      hide Join;
      AssocRight(Join(sep, front) + [sep], x, t);
    }
  }

  lemma AssocRight(a: Text, b: Text, c: Text)
    ensures a + (b + c) == (a + b) + c
  {
  }
}
