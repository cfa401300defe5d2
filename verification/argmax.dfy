/** The selection loop used twice by the agent: walk a list of scores in
    order, keeping a running maximum that starts at -1 and a best position
    that starts empty, and replace both only on a strictly larger score. */
module Argmax {
  import opened Options

  /** Position `j` holds the largest score, and every earlier position holds
      a strictly smaller one. */
  ghost predicate IsFirstMax(s: seq<real>, j: nat) {
    && j < |s|
    && (forall k :: 0 <= k < |s| ==> s[k] <= s[j])
    && (forall k :: 0 <= k < j ==> s[k] < s[j])
  }

  /** The pair (running maximum, best position) after the loop has visited
      every score of `s`. */
  function RunningMax(s: seq<real>): (r: (real, Option<nat>))
    ensures r.1.None? <==> forall k :: 0 <= k < |s| ==> s[k] <= -1.0
    ensures r.1.None? ==> r.0 == -1.0
    ensures r.1.Some? ==> IsFirstMax(s, r.1.value) && r.0 == s[r.1.value] > -1.0
    decreases |s|
  {
    if |s| == 0 then (-1.0, None)
    else
      var prev := RunningMax(s[..|s| - 1]);
      var last := s[|s| - 1];
      if last > prev.0 then (last, Some(|s| - 1)) else prev
  }
}
