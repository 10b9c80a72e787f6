/** The order of strings, and of the keys of an ordered map. */
module Lexicographic {
  import Seqs

  /** Order by the first difference in scalar values; a proper prefix comes first. */
  predicate Less(a: string, b: string) {
    b != "" && (a == "" || a[0] < b[0] || (a[0] == b[0] && Less(a[1..], b[1..])))
  }

  predicate StartsWith(s: string, prefix: string) {
    prefix <= s
  }

  lemma {:induction false} LessTransitive(a: string, b: string, c: string)
    requires Less(a, b) && Less(b, c)
    ensures Less(a, c)
  {
    if a != "" && a[0] == b[0] == c[0] {
      LessTransitive(a[1..], b[1..], c[1..]);
    }
  }

  lemma {:induction false} LessIrreflexive(a: string)
    ensures !Less(a, a)
  {
    if a != "" {
      LessIrreflexive(a[1..]);
    }
  }

  lemma LessAsymmetric(a: string, b: string)
    requires Less(a, b)
    ensures a != b && !Less(b, a)
  {
    LessIrreflexive(a);
    if Less(b, a) {
      LessTransitive(a, b, a);
    }
  }

  lemma {:induction false} LessTotal(a: string, b: string)
    ensures a == b || Less(a, b) || Less(b, a)
  {
    if a != "" && b != "" && a[0] == b[0] {
      LessTotal(a[1..], b[1..]);
      assert a == [a[0]] + a[1..] && b == [b[0]] + b[1..];
    }
  }

  /** The strings agree on their first `k` characters, and there the first one ends or has the smaller character. */
  ghost predicate DifferAt(a: string, b: string, k: nat) {
    && k <= |a| && k < |b| && a[..k] == b[..k]
    && (k == |a| || a[k] < b[k])
  }

  /** The order is decided where two strings first differ. */
  lemma {:induction false} LessByFirstDifference(a: string, b: string)
    ensures Less(a, b) <==> exists k: nat :: DifferAt(a, b, k)
  {
    if b != "" {
      forall k: nat | DifferAt(a, b, k) ensures a == "" || a[0] <= b[0] {
        FirstCharacters(a, b, k);
      }
      if a == "" || a[0] < b[0] {
        assert DifferAt(a, b, 0);
      } else if a[0] == b[0] {
        LessByFirstDifference(a[1..], b[1..]);
        if k: nat :| DifferAt(a[1..], b[1..], k) {
          assert a[..k + 1] == [a[0]] + a[1..][..k] && b[..k + 1] == [b[0]] + b[1..][..k];
          assert DifferAt(a, b, k + 1);
        }
        if k: nat :| DifferAt(a, b, k) {
          DifferBehind(a, b, k);
        }
      }
    }
  }

  lemma FirstCharacters(a: string, b: string, k: nat)
    requires DifferAt(a, b, k)
    ensures b != "" && (a == "" || a[0] <= b[0])
  {
    assert k > 0 ==> a[..k][0] == b[..k][0];
  }

  lemma DifferBehind(a: string, b: string, k: nat)
    requires a != "" && b != "" && a[0] == b[0] && DifferAt(a, b, k)
    ensures k > 0 && DifferAt(a[1..], b[1..], k - 1)
  {
    assert a[1..][..k - 1] == a[..k][1..] && b[1..][..k - 1] == b[..k][1..];
  }

  /** Nothing starting with `prefix` comes before it. */
  lemma {:induction false} PrefixComesFirst(prefix: string, s: string)
    requires StartsWith(s, prefix)
    ensures !Less(s, prefix)
  {
    if prefix != "" {
      PrefixComesFirst(prefix[1..], s[1..]);
    }
  }

  /**
   * Strings sharing a prefix are contiguous: whatever lies between the prefix
   * and a string that starts with it starts with it too.
   */
  lemma {:induction false} PrefixesAreContiguous(prefix: string, between: string, s: string)
    requires !Less(between, prefix) && Less(between, s) && StartsWith(s, prefix)
    ensures StartsWith(between, prefix)
  {
    if prefix != "" {
      PrefixesAreContiguous(prefix[1..], between[1..], s[1..]);
    }
  }

  // ---- Ascending enumeration ----

  predicate Ascending(keys: seq<string>) {
    forall i, j :: 0 <= i < j < |keys| ==> Less(keys[i], keys[j])
  }

  ghost predicate IsLeast(key: string, keys: set<string>) {
    key in keys && forall k :: k in keys ==> k == key || Less(key, k)
  }

  lemma LeastExists(keys: set<string>)
    requires keys != {}
    ensures exists key :: IsLeast(key, keys)
  {
    var k :| k in keys;
    var others := keys - {k};
    if others == {} {
      assert keys == {k};
      assert IsLeast(k, keys);
    } else {
      LeastExists(others);
      var least :| IsLeast(least, others);
      LessTotal(k, least);
      if Less(k, least) {
        forall x | x in keys ensures x == k || Less(k, x) {
          if x != k && x != least {
            LessTransitive(k, least, x);
          }
        }
        assert IsLeast(k, keys);
      } else {
        assert IsLeast(least, keys);
      }
    }
  }

  /** The keys in ascending order, as an ordered map iterates over them. */
  ghost function SortedKeys(keys: set<string>): (sorted: seq<string>)
    ensures Ascending(sorted)
    ensures forall k :: k in sorted <==> k in keys
  {
    if keys == {} then []
    else
      LeastExists(keys);
      var least :| IsLeast(least, keys);
      var sorted := [least] + SortedKeys(keys - {least});
      assert forall k :: k in sorted <==> k == least || k in keys - {least};
      sorted
  }

  lemma {:induction false} SortedKeysUnique(a: seq<string>, b: seq<string>)
    requires Ascending(a) && Ascending(b) && forall k :: k in a <==> k in b
    ensures a == b
  {
    assert b != [] ==> b[0] in b;
    if a != [] {
      assert a[0] in b;
      assert b[0] in b;
      var i :| 0 <= i < |b| && b[i] == a[0];
      var j :| 0 <= j < |a| && a[j] == b[0];
      if i > 0 && j > 0 {
        LessAsymmetric(a[0], b[0]);
      }
      assert a[0] == b[0];
      forall k ensures k in a[1..] <==> k in b[1..] {
        AscendingHead(a, k);
        AscendingHead(b, k);
      }
      SortedKeysUnique(a[1..], b[1..]);
      assert a == [a[0]] + a[1..] && b == [b[0]] + b[1..];
    }
  }

  lemma AscendingHead(a: seq<string>, k: string)
    requires a != [] && Ascending(a)
    ensures k in a[1..] <==> k in a && k != a[0]
  {
    if k in a && k != a[0] {
      var i :| 0 <= i < |a| && a[i] == k;
      assert a[1..][i - 1] == k;
    }
    if k in a[1..] {
      var i :| 0 <= i < |a[1..]| && a[1..][i] == k;
      LessAsymmetric(a[0], a[i + 1]);
    }
  }

  method InOrder(keys: set<string>) returns (sorted: seq<string>)
    ensures sorted == SortedKeys(keys)
  {
    sorted := [];
    var left := keys;
    while left != {}
      invariant left <= keys && Ascending(sorted)
      invariant forall k :: k in sorted <==> k in keys - left
      decreases left
    {
      var k :| k in left;
      left := left - {k};
      sorted := Insert(sorted, k);
    }
    SortedKeysUnique(sorted, SortedKeys(keys));
  }

  method Insert(sorted: seq<string>, key: string) returns (more: seq<string>)
    requires Ascending(sorted) && key !in sorted
    ensures Ascending(more)
    ensures forall k :: k in more <==> k == key || k in sorted
  {
    var i := 0;
    while i < |sorted| && Less(sorted[i], key)
      invariant i <= |sorted|
      invariant forall j :: 0 <= j < i ==> Less(sorted[j], key)
    {
      i := i + 1;
    }
    more := sorted[..i] + [key] + sorted[i..];
    InsertedAscends(sorted, key, i);
  }

  lemma InsertedAscends(sorted: seq<string>, key: string, i: nat)
    requires Ascending(sorted) && key !in sorted && i <= |sorted|
    requires forall j :: 0 <= j < i ==> Less(sorted[j], key)
    requires i < |sorted| ==> !Less(sorted[i], key)
    ensures var more := sorted[..i] + [key] + sorted[i..];
            Ascending(more) && forall k :: k in more <==> k == key || k in sorted
  {
    forall j | i <= j < |sorted| ensures Less(key, sorted[j]) {
      LessTotal(key, sorted[i]);
      if j > i {
        LessTransitive(key, sorted[i], sorted[j]);
      }
    }
    Seqs.Rejoin(sorted, i);
  }
}
