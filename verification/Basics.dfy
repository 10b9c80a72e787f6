/** Facts about sequences that proofs elsewhere use by name. */
module Seqs {
  lemma ConcatAssociative<T>(a: seq<T>, b: seq<T>, c: seq<T>)
    ensures (a + b) + c == a + (b + c)
  {
  }

  lemma DropDrop<T>(s: seq<T>, i: nat, j: nat)
    requires i <= j <= |s|
    ensures s[i..][j - i..] == s[j..]
    ensures s[i..][..j - i] == s[i..j]
  {
  }

  lemma DropMore<T>(s: seq<T>, i: nat, n: nat)
    requires i + n <= |s|
    ensures s[i..][n..] == s[i + n..]
  {
  }

  lemma Parts<T>(a: seq<T>, b: seq<T>)
    ensures (a + b)[..|a|] == a && (a + b)[|a|..] == b
  {
  }

  lemma CutDrop<T>(s: seq<T>, i: nat, j: nat)
    requires i <= j <= |s|
    ensures s[i..] == s[i..j] + s[j..]
  {
  }

  lemma CutTake<T>(s: seq<T>, i: nat, j: nat)
    requires i <= j <= |s|
    ensures s[..j] == s[..i] + s[i..j]
  {
  }

  lemma SplitLast<T>(s: seq<T>)
    requires s != []
    ensures s == s[..|s| - 1] + [s[|s| - 1]]
  {
  }

  lemma TailOfConcat<T>(a: seq<T>, b: seq<T>)
    requires a != []
    ensures (a + b)[0] == a[0] && (a + b)[1..] == a[1..] + b
  {
  }

  lemma Rejoin<T>(s: seq<T>, i: nat)
    requires i <= |s|
    ensures s[..i] + s[i..] == s
  {
  }

  lemma DropNothing<T>(s: seq<T>)
    ensures s[0..] == s
    ensures s[..|s|] == s
    ensures s[|s|..] == []
    ensures s + [] == s == [] + s
  {
  }

  function Sum(numbers: seq<nat>): nat {
    if numbers == [] then 0 else numbers[0] + Sum(numbers[1..])
  }

  lemma {:induction false} SumsCompare(a: seq<nat>, b: seq<nat>, k: nat)
    requires |a| == |b| && forall i :: 0 <= i < |a| ==> a[i] <= b[i]
    ensures Sum(a) <= Sum(b)
    ensures k < |a| && a[k] < b[k] ==> Sum(a) < Sum(b)
  {
    if a != [] {
      SumsCompare(a[1..], b[1..], if k > 0 then k - 1 else |a|);
    }
  }
}

/** Integer division by a variable divisor. */
module Arithmetic {
  /** Quotient and remainder are determined by the equation between them. */
  lemma DivModUnique(a: int, d: int, q: int, r: int)
    requires 0 <= r < d && a == q * d + r
    ensures a / d == q && a % d == r
  {
    var e := a / d - q;
    assert e * d == r - a % d;
    assert e >= 1 ==> e * d >= d;
    assert e <= -1 ==> e * d <= -d;
  }
}
