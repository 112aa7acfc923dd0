/** What the lists of the driver do to the sequences that mirror them: the first occurrence
    of an element removed, an element cut out, put in front, put behind. */
module Sequences {
  predicate Distinct<T(==)>(s: seq<T>) {
    forall i, j :: 0 <= i < j < |s| ==> s[i] != s[j]
  }

  /** The sequence with the element at k cut out. */
  ghost function Without<T>(s: seq<T>, k: nat): (r: seq<T>)
    requires k < |s|
    ensures |r| == |s| - 1 && forall i :: 0 <= i < |r| ==> r[i] == s[if i < k then i else i + 1]
  {
    s[..k] + s[k + 1..]
  }

  ghost function Front<T>(x: T, s: seq<T>): (r: seq<T>)
    ensures |r| == |s| + 1 && r[0] == x && forall i :: 0 <= i < |s| ==> r[i + 1] == s[i]
    ensures (forall e :: e in s ==> e in r) && (forall e :: e in r ==> e == x || e in s)
  {
    [x] + s
  }

  ghost function Back<T>(s: seq<T>, x: T): (r: seq<T>)
    ensures |r| == |s| + 1 && r[|s|] == x && forall i :: 0 <= i < |s| ==> r[i] == s[i]
  {
    s + [x]
  }

  /** The sequence without the first occurrence of x, if there is one. */
  function Remove(s: seq<nat>, x: nat): (r: seq<nat>)
    ensures x !in s ==> r == s
    ensures x in s ==> |r| == |s| - 1
    ensures forall y :: y in r ==> y in s
    ensures forall y :: y in s && y != x ==> y in r
  {
    if s == [] then [] else if s[0] == x then s[1..] else [s[0]] + Remove(s[1..], x)
  }

  lemma {:induction false} RemoveAt(s: seq<nat>, x: nat, i: nat)
    requires i < |s| && s[i] == x && x !in s[..i]
    ensures Remove(s, x) == s[..i] + s[i + 1..]
  {
    if i > 0 {
      var rest := s[1..];
      assert s[0] == s[..i][0] && s[..i][1..] == rest[..i - 1];
      RemoveAt(rest, x, i - 1);
      assert s[..i] == [s[0]] + rest[..i - 1] && s[i + 1..] == rest[i..];
    }
  }

  lemma {:induction false} RemoveDistinct(s: seq<nat>, x: nat)
    requires Distinct(s)
    ensures Distinct(Remove(s, x)) && x !in Remove(s, x)
  {
    if s != [] && s[0] != x {
      RemoveDistinct(s[1..], x);
      var r := Remove(s[1..], x);
      forall j | 0 <= j < |r| ensures r[j] != s[0] {
        assert r[j] in s[1..];
      }
    }
  }
}
