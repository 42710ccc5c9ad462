/**
 Kotlin's `List.filter`: the elements of a list that satisfy a predicate, in their original order.
 The filtering pass uses it on the child lists of bitmasks, commands, enums and structures.
 */
module Lists {

  /** The elements of `s` satisfying `p`, in order; built as `filter` builds it, front to back. */
  function Keep<C>(s: seq<C>, p: C -> bool): (r: seq<C>)
    ensures |r| <= |s|
    ensures forall j :: 0 <= j < |r| ==> r[j] in s && p(r[j])
    ensures forall i :: 0 <= i < |s| ==> (s[i] in r <==> p(s[i]))
  {
    if |s| == 0 then []
    else Keep(s[..|s| - 1], p) + (if p(s[|s| - 1]) then [s[|s| - 1]] else [])
  }

  /** The positions of `s` whose element satisfies `p`, in increasing order. */
  function KeptIndices<C>(s: seq<C>, p: C -> bool): (ix: seq<nat>)
    ensures forall j :: 0 <= j < |ix| ==> ix[j] < |s| && p(s[ix[j]])
    ensures forall j, j' :: 0 <= j < j' < |ix| ==> ix[j] < ix[j']
    ensures forall i :: 0 <= i < |s| && p(s[i]) ==> i in ix
  {
    if |s| == 0 then []
    else
      var n := |s| - 1;
      var front := KeptIndices(s[..n], p);
      assert forall j :: 0 <= j < |front| ==> s[..n][front[j]] == s[front[j]];
      front + (if p(s[n]) then [n] else [])
  }

  /**
   Order preservation: the kept list is `s` read at exactly the positions whose element
   satisfies `p`, those positions taken in increasing order.
   */
  lemma {:induction false} KeepByIndices<C>(s: seq<C>, p: C -> bool)
    ensures |Keep(s, p)| == |KeptIndices(s, p)|
    ensures forall j :: 0 <= j < |Keep(s, p)| ==> Keep(s, p)[j] == s[KeptIndices(s, p)[j]]
  {
    if |s| > 0 {
      var n := |s| - 1;
      KeepByIndices(s[..n], p);
      var front, ix := Keep(s[..n], p), KeptIndices(s[..n], p);
      var tail := if p(s[n]) then [s[n]] else [];
      var tailIx := if p(s[n]) then [n] else [];
      forall j | 0 <= j < |front| + |tail|
        ensures (front + tail)[j] == s[(ix + tailIx)[j]]
      {
        if j < |front| {
          assert front[j] == s[..n][ix[j]];
        }
      }
    }
  }

  /** A list all of whose elements satisfy `p` is left as it is. */
  lemma {:induction false} KeepAllSatisfy<C>(s: seq<C>, p: C -> bool)
    requires forall i :: 0 <= i < |s| ==> p(s[i])
    ensures Keep(s, p) == s
  {
    if |s| > 0 {
      var n := |s| - 1;
      KeepAllSatisfy(s[..n], p);
      assert s[..n] + [s[n]] == s;
    }
  }

  /** Filtering a filtered list again with the same predicate changes nothing. */
  lemma KeepIdempotent<C>(s: seq<C>, p: C -> bool)
    ensures Keep(Keep(s, p), p) == Keep(s, p)
  {
    KeepAllSatisfy(Keep(s, p), p);
  }
}
