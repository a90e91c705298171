/** Shared value types. */
module Common {

  datatype Option<+T> = None | Some(value: T)

  /** No element occurs twice. */
  ghost predicate Distinct<T>(s: seq<T>) {
    forall i, j :: 0 <= i < j < |s| ==> s[i] != s[j]
  }

  ghost function Reversed<T>(s: seq<T>): (r: seq<T>)
    ensures |r| == |s| && forall k | 0 <= k < |s| :: r[k] == s[|s| - 1 - k]
  {
    if s == [] then [] else Reversed(s[1..]) + [s[0]]
  }

  method Reverse<T>(s: seq<T>) returns (r: seq<T>)
    ensures r == Reversed(s)
  {
    r := [];
    for k := 0 to |s|
      invariant r == Reversed(s[..k])
    {
      assert Reversed(s[..k + 1]) == [s[k]] + Reversed(s[..k]);
      r := [s[k]] + r;
    }
    assert s[..|s|] == s;
  }

  ghost function SumOver<T>(s: seq<T>, weight: T -> nat): nat {
    if s == [] then 0 else SumOver(s[..|s| - 1], weight) + weight(s[|s| - 1])
  }

  lemma {:induction false} SumOverUpdate<T>(s: seq<T>, weight: T -> nat, i: nat, x: T)
    requires i < |s|
    ensures SumOver(s[i := x], weight) + weight(s[i]) == SumOver(s, weight) + weight(x)
    decreases |s|
  {
    var up, init := s[i := x], s[..|s| - 1];
    if i < |s| - 1 {
      SumOverUpdate(init, weight, i, x);
      assert up[..|up| - 1] == init[i := x];
    } else {
      assert up[..|up| - 1] == init;
    }
  }
}
