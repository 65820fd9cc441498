/**
 * The per-user rolling window: a `deque(maxlen=FIRST_SAMPLES_COUNT)` of
 * readings, oldest first. Appending to a full window evicts the oldest reading.
 */
module RollingWindow {

  /** FIRST_SAMPLES_COUNT: the window length, and the warm-up length. */
  const Capacity: nat := 100

  function Min(a: nat, b: nat): nat
  {
    if a < b then a else b
  }

  /** The newest `k` elements of `s` (all of `s` when it is shorter). */
  function Last<T>(s: seq<T>, k: nat): (r: seq<T>)
    ensures |r| == Min(|s|, k)
  {
    s[|s| - Min(|s|, k)..]
  }

  /**
   * `deque.append` on a deque bounded by Capacity: the new reading goes last;
   * when the window was full, the oldest reading is dropped and the rest keep
   * their order.
   */
  function Append(w: seq<real>, x: real): (r: seq<real>)
    requires |w| <= Capacity
    ensures |r| == Min(|w| + 1, Capacity)
    ensures r[|r| - 1] == x
    ensures r[..|r| - 1] == w[|w| + 1 - |r|..]
  {
    if |w| < Capacity then w + [x] else w[1..] + [x]
  }

  /** The window after an append is the newest Capacity readings ever appended. */
  lemma AppendKeepsNewest(s: seq<real>, x: real)
    ensures Append(Last(s, Capacity), x) == Last(s + [x], Capacity)
  {
    var w := Last(s, Capacity);
    var r := Append(w, x);
    var t := Last(s + [x], Capacity);
    assert |r| == |t|;
    forall i | 0 <= i < |r|
      ensures r[i] == t[i]
    {
      if i < |r| - 1 {
        assert r[i] == w[|w| + 1 - |r| + i];
      }
    }
  }

  /** Appending to a window is keeping the newest Capacity of the window and the new reading. */
  lemma AppendIsLast(w: seq<real>, x: real)
    requires |w| <= Capacity
    ensures Append(w, x) == Last(w + [x], Capacity)
  {
    LastShort(w, Capacity);
    AppendKeepsNewest(w, x);
  }

  /** Trimming to the newest `k` early changes nothing once later elements are trimmed too. */
  lemma LastOfLast<T>(s: seq<T>, t: seq<T>, k: nat)
    ensures Last(Last(s, k) + t, k) == Last(s + t, k)
  {
    var a := Last(Last(s, k) + t, k);
    var b := Last(s + t, k);
    assert |a| == |b|;
    forall i | 0 <= i < |a|
      ensures a[i] == b[i]
    {
      var l := Last(s, k);
      var j := |l + t| - |a| + i;
      if j < |l| {
        assert a[i] == l[j] == s[|s| - |l| + j];
      } else {
        assert a[i] == t[j - |l|];
      }
    }
  }

  /** Keeping the newest k of s + t and then adding u keeps the newest k of s + (t + u). */
  lemma LastOfLastConcat<T>(s: seq<T>, t: seq<T>, u: seq<T>, k: nat)
    ensures Last(Last(s + t, k) + u, k) == Last(s + (t + u), k)
  {
    LastOfLast(s + t, u, k);
    assert s + t + u == s + (t + u);
  }

  /** A window holding at most `k` elements is its own newest `k`. */
  lemma LastShort<T>(s: seq<T>, k: nat)
    requires |s| <= k
    ensures Last(s, k) == s
  {
  }
}
