/**
 The leaders' output loops: the subsequence of inputs whose test succeeded.
 */
module Selection {

  function Select(inputs: seq<nat>, flags: seq<bool>): seq<nat>
    requires |inputs| == |flags|
  {
    if |inputs| == 0 then []
    else Select(inputs[..|inputs| - 1], flags[..|inputs| - 1]) + if flags[|inputs| - 1] then [inputs[|inputs| - 1]] else []
  }

  // The flagged indices among the first k.
  ghost function Flagged(flags: seq<bool>, k: nat): (r: set<int>)
    requires k <= |flags|
    ensures forall i :: i in r <==> 0 <= i < k && flags[i]
  {
    set i | 0 <= i < k && flags[i]
  }

  lemma NothingFlagged(flags: seq<bool>)
    ensures Flagged(flags, 0) == {} && |Flagged(flags, 0)| == 0
  {
  }

  /** One index more. */
  lemma {:induction false} FlaggedNext(flags: seq<bool>, k: nat)
    requires k < |flags|
    ensures Flagged(flags, k + 1) == Flagged(flags, k) + (if flags[k] then {k as int} else {})
    ensures |Flagged(flags, k + 1)| == |Flagged(flags, k)| + if flags[k] then 1 else 0
  {
    assert k !in Flagged(flags, k);
    assert Flagged(flags, k + 1) == Flagged(flags, k) + (if flags[k] then {k as int} else {});
  }

  /** Running sums that grow by one at every flag count the flags. */
  lemma {:induction false} SumsCount(sums: seq<int>, flags: seq<bool>, k: nat)
    requires |sums| == |flags| + 1 && k <= |flags| && sums[0] == 0
    requires forall i :: 0 <= i < |flags| ==> sums[i + 1] == sums[i] + if flags[i] then 1 else 0
    ensures sums[k] == |Flagged(flags, k)|
  {
    if k == 0 {
      NothingFlagged(flags);
    } else {
      SumsCount(sums, flags, k - 1);
      FlaggedNext(flags, k - 1);
      assert sums[(k - 1) + 1] == sums[k - 1] + if flags[k - 1] then 1 else 0;
    }
  }

  lemma {:induction false} SelectSnoc(inputs: seq<nat>, flags: seq<bool>, i: nat, flag: bool)
    requires i < |inputs| && |flags| == i
    ensures Select(inputs[..i + 1], flags + [flag]) == Select(inputs[..i], flags) + if flag then [inputs[i]] else []
  {
    assert inputs[..i + 1][..i] == inputs[..i];
    assert (flags + [flag])[..i] == flags;
  }

  lemma {:induction false} SelectContains(inputs: seq<nat>, flags: seq<bool>, i: nat)
    requires |inputs| == |flags| && i < |inputs| && flags[i]
    ensures inputs[i] in Select(inputs, flags)
  {
    if i < |inputs| - 1 {
      SelectContains(inputs[..|inputs| - 1], flags[..|inputs| - 1], i);
    }
  }

  lemma {:induction false} SelectLength(inputs: seq<nat>, flags: seq<bool>, k: nat)
    requires |inputs| == |flags| && k <= |inputs|
    ensures |Select(inputs[..k], flags[..k])| == |Flagged(flags, k)|
  {
    if k == 0 {
      assert Flagged(flags, 0) == {};
    } else {
      SelectLength(inputs, flags, k - 1);
      FlaggedNext(flags, k - 1);
      assert flags[..k] == flags[..k - 1] + [flags[k - 1]];
      SelectSnoc(inputs, flags[..k - 1], k - 1, flags[k - 1]);
    }
  }

  lemma {:induction false} SelectPrefix(inputs: seq<nat>, flags: seq<bool>, k: nat)
    requires |inputs| == |flags| && k <= |inputs|
    ensures Select(inputs[..k], flags[..k]) <= Select(inputs, flags)
    decreases |inputs| - k
  {
    if k == |inputs| {
      assert inputs[..k] == inputs && flags[..k] == flags;
    } else {
      SelectPrefix(inputs, flags, k + 1);
      assert flags[..k + 1] == flags[..k] + [flags[k]];
      SelectSnoc(inputs, flags[..k], k, flags[k]);
    }
  }

  /** The selection is the flagged inputs in order: as many as there are flags, and the input of a flagged
      index stands where the number of flags before it says. */
  lemma {:induction false} SelectAt(inputs: seq<nat>, flags: seq<bool>, i: nat)
    requires |inputs| == |flags| && i < |inputs| && flags[i]
    ensures |Select(inputs, flags)| == |Flagged(flags, |flags|)|
    ensures |Flagged(flags, i)| < |Select(inputs, flags)| && Select(inputs, flags)[|Flagged(flags, i)|] == inputs[i]
  {
    SelectLength(inputs, flags, |inputs|);
    assert inputs[..|inputs|] == inputs && flags[..|flags|] == flags;
    SelectLength(inputs, flags, i);
    SelectPrefix(inputs, flags, i + 1);
    assert flags[..i + 1] == flags[..i] + [flags[i]];
    SelectSnoc(inputs, flags[..i], i, true);
  }

  /** Nothing else is selected. */
  lemma {:induction false} SelectIff(inputs: seq<nat>, flags: seq<bool>, x: nat)
    requires |inputs| == |flags|
    ensures x in Select(inputs, flags) <==> exists i :: 0 <= i < |inputs| && flags[i] && inputs[i] == x
  {
    if |inputs| > 0 {
      var n := |inputs| - 1;
      SelectIff(inputs[..n], flags[..n], x);
      if i :| 0 <= i < |inputs| && flags[i] && inputs[i] == x {
        SelectContains(inputs, flags, i);
      }
    }
  }
}
