/** `str.split("/")` on MQTT topics, and its inverse. */
module Topic {

  const Separator: char := '/'

  /** The segments joined back together, a separator between each two. */
  function Join(parts: seq<string>): string
    requires |parts| >= 1
  {
    if |parts| == 1 then parts[0] else parts[0] + [Separator] + Join(parts[1..])
  }

  /**
   * Python's `topic.split("/")`: always at least one segment, no segment holds
   * the separator, and joining the segments gives back the topic.
   */
  function Split(s: string): (parts: seq<string>)
    ensures |parts| >= 1
    ensures forall i :: 0 <= i < |parts| ==> Separator !in parts[i]
    ensures Join(parts) == s
  {
    if s == [] then [[]]
    else
      var rest := Split(s[1..]);
      if s[0] == Separator then
        [[]] + rest
      else
        assert |rest| > 1 ==> Join(rest) == rest[0] + [Separator] + Join(rest[1..]);
        [[s[0]] + rest[0]] + rest[1..]
  }

  /** A first segment without a separator is split off whole. */
  lemma {:induction false} SplitSegment(a: string, t: string)
    requires Separator !in a
    ensures Split(a + [Separator] + t) == [a] + Split(t)
  {
    if a == [] {
      assert [] + [Separator] + t == [Separator] + t;
      assert ([Separator] + t)[1..] == t;
    } else {
      assert (a + [Separator] + t)[1..] == a[1..] + [Separator] + t;
      SplitSegment(a[1..], t);
      assert [a[0]] + a[1..] == a;
    }
  }

  /** A topic with no separator is a single segment. */
  lemma {:induction false} SplitWhole(a: string)
    requires Separator !in a
    ensures Split(a) == [a]
  {
    if a != [] {
      SplitWhole(a[1..]);
      assert [a[0]] + a[1..] == a;
    }
  }

  /** Splitting undoes joining separator-free segments. */
  lemma {:induction false} SplitJoin(parts: seq<string>)
    requires |parts| >= 1
    requires forall i :: 0 <= i < |parts| ==> Separator !in parts[i]
    ensures Split(Join(parts)) == parts
  {
    if |parts| == 1 {
      SplitWhole(parts[0]);
    } else {
      SplitJoin(parts[1..]);
      SplitSegment(parts[0], Join(parts[1..]));
    }
  }
}
