/** Lists with some positions left out. */
module Sublists {
  /** `positions` are, in order, the places in `s` of the elements of `kept`. */
  ghost predicate Picks<T>(s: seq<T>, positions: seq<nat>, kept: seq<T>) {
    && |positions| == |kept|
    && (forall i :: 0 <= i < |kept| ==> positions[i] < |s| && s[positions[i]] == kept[i])
    && (forall i, j :: 0 <= i < j < |positions| ==> positions[i] < positions[j])
  }

  /** Positions in a list with one more element in front. */
  ghost function Behind(positions: seq<nat>): (r: seq<nat>)
    ensures |r| == |positions| && forall i :: 0 <= i < |r| ==> r[i] == positions[i] + 1
  {
    seq(|positions|, i requires 0 <= i < |positions| => positions[i] + 1)
  }

  lemma PickBehind<T>(s: seq<T>, positions: seq<nat>, kept: seq<T>, first: bool)
    requires s != [] && Picks(s[1..], positions, kept)
    ensures var positions' := (if first then [0] else []) + Behind(positions);
            && Picks(s, positions', (if first then [s[0]] else []) + kept)
            && (0 in positions' <==> first)
            && forall k :: 0 < k < |s| ==> (k in positions' <==> k - 1 in positions)
  {
    var behind := Behind(positions);
    forall k | 0 < k < |s|
      ensures k in behind <==> k - 1 in positions
    {
      if k - 1 in positions {
        var i :| 0 <= i < |positions| && positions[i] == k - 1;
        assert behind[i] == k;
      }
    }
  }
}
