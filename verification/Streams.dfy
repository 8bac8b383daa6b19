/** Stretches of rings, one after the other. */
module Streams {
  import opened Ring

  /** d elements from index i on. */
  ghost function Slice<T>(s: seq<T>, i: nat, d: nat): (r: seq<T>)
    requires i < |s| && d <= |s|
    ensures |r| == d && forall k {:trigger r[k]} :: 0 <= k < d ==> r[k] == s[At(i, k, |s|)]
  {
    seq(d, k requires 0 <= k < d => s[At(i, k, |s|)])
  }

  /** A stretch of each ring: where it starts, and how long it is. */
  ghost predicate Stretches<T>(v: seq<seq<T>>, starts: seq<nat>, counts: seq<nat>) {
    && |starts| == |counts| == |v|
    && forall i {:trigger v[i]} {:trigger starts[i]} {:trigger counts[i]} :: 0 <= i < |v| ==> starts[i] < |v[i]| && counts[i] <= |v[i]|
  }

  ghost function Joined<T>(v: seq<seq<T>>, starts: seq<nat>, counts: seq<nat>): seq<T>
    requires Stretches(v, starts, counts)
  {
    if v == [] then []
    else
      var k := |v| - 1;
      Joined(v[..k], starts[..k], counts[..k]) + Slice(v[k], starts[k], counts[k])
  }

  lemma {:induction false} Nothing<T>(v: seq<seq<T>>, starts: seq<nat>, counts: seq<nat>)
    requires Stretches(v, starts, counts) && forall i {:trigger counts[i]} :: 0 <= i < |v| ==> counts[i] == 0
    ensures Joined(v, starts, counts) == []
  {
    if v != [] {
      var k := |v| - 1;
      Nothing(v[..k], starts[..k], counts[..k]);
    }
  }

  /** Ring a has lost the first k elements of its stretch. */
  ghost predicate Shorter<T>(v: seq<seq<T>>, starts: seq<nat>, counts: seq<nat>, v': seq<seq<T>>, starts': seq<nat>,
                             counts': seq<nat>, a: nat, k: nat)
  {
    && Stretches(v, starts, counts) && Stretches(v', starts', counts') && |v'| == |v| && a < |v| && k <= counts[a]
    && (forall i {:trigger v'[i]} :: 0 <= i < |v| && i != a ==> v'[i] == v[i] && starts'[i] == starts[i] && counts'[i] == counts[i])
    && |v'[a]| == |v[a]| && starts'[a] == At(starts[a], k, |v[a]|) && counts'[a] == counts[a] - k
    && forall x {:trigger At(starts[a], x, |v[a]|)} :: k <= x < counts[a] ==>
         v'[a][At(starts[a], x, |v[a]|)] == v[a][At(starts[a], x, |v[a]|)]
  }

  lemma SliceShorter<T>(s: seq<T>, s': seq<T>, i: nat, d: nat, k: nat)
    requires i < |s| == |s'| && k <= d <= |s|
    requires forall x {:trigger At(i, x, |s|)} :: k <= x < d ==> s'[At(i, x, |s|)] == s[At(i, x, |s|)]
    ensures Slice(s, i, d) == Slice(s, i, k) + Slice(s', At(i, k, |s|), d - k)
  {
    var r := Slice(s', At(i, k, |s|), d - k);
    forall x | 0 <= x < d - k ensures r[x] == s[At(i, k + x, |s|)] {
      AtAt(i, k, x, |s|);
    }
  }

  lemma Front<T>(v: seq<seq<T>>, starts: seq<nat>, counts: seq<nat>, v': seq<seq<T>>, starts': seq<nat>, counts': seq<nat>,
                 a: nat, k: nat)
    requires Shorter(v, starts, counts, v', starts', counts', a, k) && a < |v| - 1
    ensures var l := |v| - 1; Shorter(v[..l], starts[..l], counts[..l], v'[..l], starts'[..l], counts'[..l], a, k)
  {
    var l := |v| - 1;
    forall i | 0 <= i < l && i != a
      ensures v'[..l][i] == v[..l][i] && starts'[..l][i] == starts[..l][i] && counts'[..l][i] == counts[..l][i]
    {
      assert v'[i] == v[i];
    }
  }

  /** If the rings before a have nothing, these are the first k elements of all. */
  lemma {:induction false} TakenFirst<T>(v: seq<seq<T>>, starts: seq<nat>, counts: seq<nat>, v': seq<seq<T>>, starts': seq<nat>,
                                         counts': seq<nat>, a: nat, k: nat)
    requires Shorter(v, starts, counts, v', starts', counts', a, k)
    requires forall i {:trigger counts[i]} :: 0 <= i < a ==> counts[i] == 0
    ensures Joined(v, starts, counts) == Slice(v[a], starts[a], k) + Joined(v', starts', counts')
    decreases |v|
  {
    var l := |v| - 1;
    if a < l {
      Front(v, starts, counts, v', starts', counts', a, k);
      TakenFirst(v[..l], starts[..l], counts[..l], v'[..l], starts'[..l], counts'[..l], a, k);
      assert v'[l] == v[l];
    } else {
      assert forall i {:trigger counts'[i]} :: 0 <= i < a ==> counts'[i] == 0 by {
        forall i | 0 <= i < a ensures counts'[i] == 0 { assert v'[i] == v[i] && counts[i] == 0; }
      }
      Nothing(v[..l], starts[..l], counts[..l]);
      Nothing(v'[..l], starts'[..l], counts'[..l]);
      SliceShorter(v[a], v'[a], starts[a], counts[a], k);
    }
  }

  /** Ring b has got k elements more. */
  ghost predicate Longer<T>(v: seq<seq<T>>, starts: seq<nat>, counts: seq<nat>, v': seq<seq<T>>, counts': seq<nat>, b: nat, k: nat) {
    && Stretches(v, starts, counts) && Stretches(v', starts, counts') && |v'| == |v| && b < |v|
    && (forall i {:trigger v'[i]} :: 0 <= i < |v| && i != b ==> v'[i] == v[i] && counts'[i] == counts[i])
    && |v'[b]| == |v[b]| && counts'[b] == counts[b] + k
    && forall x {:trigger At(starts[b], x, |v[b]|)} :: 0 <= x < counts[b] ==>
         v'[b][At(starts[b], x, |v[b]|)] == v[b][At(starts[b], x, |v[b]|)]
  }

  lemma SliceLonger<T>(s: seq<T>, s': seq<T>, i: nat, d: nat, k: nat)
    requires i < |s| == |s'| && d + k <= |s|
    requires forall x {:trigger At(i, x, |s|)} :: 0 <= x < d ==> s'[At(i, x, |s|)] == s[At(i, x, |s|)]
    ensures Slice(s', i, d + k) == Slice(s, i, d) + Slice(s', At(i, d, |s|), k)
  {
    var r := Slice(s', At(i, d, |s|), k);
    forall x | 0 <= x < k ensures r[x] == s'[At(i, d + x, |s|)] {
      AtAt(i, d, x, |s|);
    }
  }

  lemma FrontLonger<T>(v: seq<seq<T>>, starts: seq<nat>, counts: seq<nat>, v': seq<seq<T>>, counts': seq<nat>, b: nat, k: nat)
    requires Longer(v, starts, counts, v', counts', b, k) && b < |v| - 1
    ensures var l := |v| - 1; Longer(v[..l], starts[..l], counts[..l], v'[..l], counts'[..l], b, k)
  {
    var l := |v| - 1;
    forall i | 0 <= i < l && i != b ensures v'[..l][i] == v[..l][i] && counts'[..l][i] == counts[..l][i] {
      assert v'[i] == v[i];
    }
  }

  /** If the rings after b have nothing, these are the last k elements of all. */
  lemma {:induction false} PutLast<T>(v: seq<seq<T>>, starts: seq<nat>, counts: seq<nat>, v': seq<seq<T>>, counts': seq<nat>,
                                      b: nat, k: nat)
    requires Longer(v, starts, counts, v', counts', b, k)
    requires forall i {:trigger counts[i]} :: b < i < |v| ==> counts[i] == 0
    ensures Joined(v', starts, counts') == Joined(v, starts, counts) + Slice(v'[b], At(starts[b], counts[b], |v[b]|), k)
    decreases |v|
  {
    var l := |v| - 1;
    if b < l {
      FrontLonger(v, starts, counts, v', counts', b, k);
      PutLast(v[..l], starts[..l], counts[..l], v'[..l], counts'[..l], b, k);
      assert v'[l] == v[l] && counts[l] == 0;
    } else {
      assert v'[..l] == v[..l] by {
        forall i | 0 <= i < l ensures v'[..l][i] == v[..l][i] { assert v'[i] == v[i]; }
      }
      assert counts'[..l] == counts[..l] by {
        forall i | 0 <= i < l ensures counts'[..l][i] == counts[..l][i] { assert v'[i] == v[i]; }
      }
      SliceLonger(v[b], v'[b], starts[b], counts[b], k);
    }
  }
}
