// Small definitions that several components share.
module Common {
  datatype Option<T> = None | Some(value: T)

  const NUL := "\0"

  function Max(a: int, b: int): int { if a < b then b else a }

  // A cast from a real to an integer type: toward zero.
  function Truncate(x: real): int {
    if x >= 0.0 then x.Floor else -((-x).Floor)
  }

  // The last of some numbers, or zero when there are none.
  function Last(ns: seq<nat>): nat {
    if ns == [] then 0 else ns[|ns| - 1]
  }

  function Mapped<T, U>(s: seq<T>, f: T -> U): (r: seq<U>)
    ensures |r| == |s|
  {
    if s == [] then [] else [f(s[0])] + Mapped(s[1..], f)
  }

  lemma {:induction false} MappedAt<T, U>(s: seq<T>, f: T -> U, i: nat)
    requires i < |s|
    ensures Mapped(s, f)[i] == f(s[i])
  {
    if i == 0 {
    } else {
      MappedAt(s[1..], f, i - 1);
    }
  }

  lemma {:induction false} MappedFixes<T>(s: seq<T>, f: T -> T)
    requires forall x :: x in s ==> f(x) == x
    ensures Mapped(s, f) == s
  {
    if s == [] {
    } else {
      assert s == [s[0]] + s[1..];
      MappedFixes(s[1..], f);
    }
  }

  lemma {:induction false} MappedConcatenates<T, U>(s: seq<T>, t: seq<T>, f: T -> U)
    ensures Mapped(s + t, f) == Mapped(s, f) + Mapped(t, f)
  {
    if s == [] {
      assert s + t == t;
    } else {
      assert (s + t)[1..] == s[1..] + t;
      MappedConcatenates(s[1..], t, f);
    }
  }
}
