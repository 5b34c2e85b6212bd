/**
 * The JavaScript array methods the job queue relies on (`every`, `some`,
 * `find` and `filter`), stated over sequences. Each definition walks the
 * sequence from the front, as the built-ins do, and its contract says what
 * the result means for the whole sequence.
 */
module ArrayOps {
  import opened Wrappers

  /** `Array.prototype.every`: true of the empty sequence. */
  function Every<T>(s: seq<T>, p: T -> bool): (r: bool)
    ensures r <==> forall i :: 0 <= i < |s| ==> p(s[i])
  {
    if |s| == 0 then true else p(s[0]) && Every(s[1..], p)
  }

  /** `Array.prototype.some`: false of the empty sequence. */
  function Any<T>(s: seq<T>, p: T -> bool): (r: bool)
    ensures r <==> exists i :: 0 <= i < |s| && p(s[i])
  {
    if |s| == 0 then false else p(s[0]) || Any(s[1..], p)
  }

  /**
   * `Array.prototype.find`, giving the position of the element found rather
   * than the element itself, since the caller then updates that element in
   * place.
   */
  function FindIndex<T>(s: seq<T>, p: T -> bool): (r: Option<nat>)
    ensures r.Some? ==> r.value < |s| && p(s[r.value])
    ensures r.Some? ==> forall k :: 0 <= k < r.value ==> !p(s[k])
    ensures r.None? <==> forall k :: 0 <= k < |s| ==> !p(s[k])
  {
    if |s| == 0 then None
    else if p(s[0]) then Some(0)
    else match FindIndex(s[1..], p)
      case None => None
      case Some(k) => Some(k + 1)
  }

  /** The first position satisfying `p` is the one `FindIndex` reports. */
  lemma FindIndexFirst<T>(s: seq<T>, p: T -> bool, i: nat)
    requires i < |s| && p(s[i])
    requires forall k :: 0 <= k < i ==> !p(s[k])
    ensures FindIndex(s, p) == Some(i)
  {
  }

  /** `Array.prototype.filter`: the elements that satisfy `p`, in their original order. */
  function Filter<T(==)>(s: seq<T>, p: T -> bool): (r: seq<T>)
    ensures |r| <= |s|
    ensures forall i :: 0 <= i < |r| ==> r[i] in s && p(r[i])
    ensures forall k :: 0 <= k < |s| && p(s[k]) ==> s[k] in r
  {
    if |s| == 0 then []
    else if p(s[0]) then [s[0]] + Filter(s[1..], p)
    else Filter(s[1..], p)
  }

  /**
   * Filtering works element by element: the filter of a concatenation is the
   * concatenation of the filters. With the empty and one-element cases of the
   * definition this fixes the result as the passing elements, in order.
   */
  lemma {:induction false} FilterAppend<T>(a: seq<T>, b: seq<T>, p: T -> bool)
    ensures Filter(a + b, p) == Filter(a, p) + Filter(b, p)
  {
    if |a| > 0 {
      assert (a + b)[1..] == a[1..] + b;
      FilterAppend(a[1..], b, p);
    } else {
      assert a + b == b;
    }
  }

  /** Filtering keeps a sequence whole when every element passes. */
  lemma {:induction false} FilterKeepsAll<T>(s: seq<T>, p: T -> bool)
    requires forall k :: 0 <= k < |s| ==> p(s[k])
    ensures Filter(s, p) == s
  {
    if |s| > 0 {
      FilterKeepsAll(s[1..], p);
      assert s == [s[0]] + s[1..];
    }
  }

  /**
   * When exactly one element fails `p`, filtering removes that element and
   * keeps the others in their relative order.
   */
  lemma {:induction false} FilterDropsOne<T>(s: seq<T>, p: T -> bool, i: nat)
    requires i < |s| && !p(s[i])
    requires forall k :: 0 <= k < |s| && k != i ==> p(s[k])
    ensures Filter(s, p) == s[..i] + s[i + 1..]
  {
    var t := s[1..];
    if i == 0 {
      FilterKeepsAll(t, p);
      assert s[..0] + s[1..] == t;
    } else {
      assert forall k :: 0 <= k < |t| && k != i - 1 ==> p(t[k]) by {
        forall k | 0 <= k < |t| && k != i - 1
          ensures p(t[k])
        {
          assert t[k] == s[k + 1];
        }
      }
      FilterDropsOne(t, p, i - 1);
      assert Filter(s, p) == [s[0]] + Filter(t, p);
      DropAfterHead(s, i);
    }
  }

  /** Removing position `i > 0` of `s` is keeping the head and removing position `i - 1` of the tail. */
  lemma DropAfterHead<T>(s: seq<T>, i: nat)
    requires 0 < i < |s|
    ensures [s[0]] + (s[1..][..i - 1] + s[1..][i..]) == s[..i] + s[i + 1..]
  {
    assert [s[0]] + s[1..][..i - 1] == s[..i];
    assert s[1..][i..] == s[i + 1..];
  }
}
