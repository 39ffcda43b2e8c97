/** Reference definitions over sequences, used to state what the pipeline
    computes independently of the loops that compute it. */
module Seqs {

  /** The elements of `s` that satisfy `f`, in their original order. */
  function Filter<T>(s: seq<T>, f: T -> bool): (r: seq<T>)
    ensures |r| <= |s|
    ensures forall i :: 0 <= i < |r| ==> f(r[i])
  {
    if |s| == 0 then []
    else if f(s[0]) then [s[0]] + Filter(s[1..], f)
    else Filter(s[1..], f)
  }

  /** `g` applied to every element of `s`. */
  function Map<T, U>(s: seq<T>, g: T -> U): (r: seq<U>)
    ensures |r| == |s|
    ensures forall i :: 0 <= i < |s| ==> r[i] == g(s[i])
  {
    if |s| == 0 then [] else [g(s[0])] + Map(s[1..], g)
  }

  /** The concatenation of the sequences in `xss`, in order, duplicates kept. */
  function Flatten<T>(xss: seq<seq<T>>): seq<T>
  {
    if |xss| == 0 then [] else xss[0] + Flatten(xss[1..])
  }

  /** Python's `sep.join(parts)`. */
  function Join(parts: seq<string>, sep: string): string
  {
    if |parts| == 0 then ""
    else if |parts| == 1 then parts[0]
    else parts[0] + sep + Join(parts[1..], sep)
  }

  /** Python's `sub in s` for strings. */
  predicate Contains(s: string, sub: string)
    decreases |s|
  {
    |sub| <= |s| && (s[..|sub|] == sub || Contains(s[1..], sub))
  }

  lemma {:induction false} FilterSnoc<T>(s: seq<T>, x: T, f: T -> bool)
    ensures Filter(s + [x], f) == Filter(s, f) + (if f(x) then [x] else [])
  {
    if |s| == 0 {
      assert s + [x] == [x];
    } else {
      assert (s + [x])[1..] == s[1..] + [x];
      FilterSnoc(s[1..], x, f);
    }
  }

  lemma {:induction false} MapSnoc<T, U>(s: seq<T>, x: T, g: T -> U)
    ensures Map(s + [x], g) == Map(s, g) + [g(x)]
  {
  }

  lemma {:induction false} FlattenSnoc<T>(xss: seq<seq<T>>, xs: seq<T>)
    ensures Flatten(xss + [xs]) == Flatten(xss) + xs
  {
    if |xss| == 0 {
      assert xss + [xs] == [xs];
    } else {
      assert (xss + [xs])[1..] == xss[1..] + [xs];
      FlattenSnoc(xss[1..], xs);
    }
  }

  /** `sub` occurs in `s` starting at offset `i`. */
  predicate OccursAt(s: string, sub: string, i: int)
  {
    0 <= i && i + |sub| <= |s| && s[i..i + |sub|] == sub
  }

  /** `Contains` is exactly "occurs at some offset". */
  lemma {:induction false} ContainsIff(s: string, sub: string)
    ensures Contains(s, sub) <==> exists i :: OccursAt(s, sub, i)
    decreases |s|
  {
    if |sub| <= |s| {
      if s[..|sub|] == sub {
        assert OccursAt(s, sub, 0);
      } else {
        ContainsIff(s[1..], sub);
        if exists i :: OccursAt(s, sub, i) {
          var i :| OccursAt(s, sub, i);
          assert i != 0;
          assert s[1..][i - 1..i - 1 + |sub|] == s[i..i + |sub|];
          assert OccursAt(s[1..], sub, i - 1);
        }
        if Contains(s[1..], sub) {
          var i :| OccursAt(s[1..], sub, i);
          assert s[1..][i..i + |sub|] == s[i + 1..i + 1 + |sub|];
          assert OccursAt(s, sub, i + 1);
        }
      }
    }
  }
}
