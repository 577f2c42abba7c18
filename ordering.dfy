/**
 The order in which a BTreeMap<String, _> yields its keys: lexicographic order
 on the characters (for UTF-8 text, byte order and code-point order agree).
 SortedKeys is the iteration over such a map; SortedSeq is the unique sequence
 it produces.
 */
module Ordering {

  /** Strict lexicographic order on strings. */
  predicate Less(a: string, b: string)
    decreases |a|
  {
    if |a| == 0 then |b| > 0
    else if |b| == 0 then false
    else if a[0] != b[0] then a[0] < b[0]
    else Less(a[1..], b[1..])
  }

  lemma {:induction false} LessIrreflexive(a: string)
    ensures !Less(a, a)
    decreases |a|
  {
    if |a| > 0 { LessIrreflexive(a[1..]); }
  }

  lemma {:induction false} LessTransitive(a: string, b: string, c: string)
    requires Less(a, b) && Less(b, c)
    ensures Less(a, c)
    decreases |a|
  {
    if |a| > 0 && |b| > 0 && |c| > 0 && a[0] == b[0] && b[0] == c[0] {
      LessTransitive(a[1..], b[1..], c[1..]);
    }
  }

  lemma {:induction false} LessTotal(a: string, b: string)
    requires a != b
    ensures Less(a, b) || Less(b, a)
    decreases |a|
  {
    if |a| > 0 && |b| > 0 && a[0] == b[0] {
      assert a == [a[0]] + a[1..] && b == [b[0]] + b[1..];
      LessTotal(a[1..], b[1..]);
    }
  }

  lemma LessAsymmetric(a: string, b: string)
    requires Less(a, b)
    ensures !Less(b, a)
  {
    if Less(b, a) {
      LessTransitive(a, b, a);
      LessIrreflexive(a);
    }
  }

  /** The elements of a sequence. */
  function Elems(s: seq<string>): set<string>
  {
    set x | x in s
  }

  lemma ElemsEmpty(s: seq<string>)
    ensures Elems(s) == {} <==> s == []
  {
    if s != [] { assert s[0] in Elems(s); }
  }

  /** Every element precedes every later one: sorted and without repetition. */
  predicate StrictlySorted(s: seq<string>)
  {
    forall i, j :: 0 <= i < j < |s| ==> Less(s[i], s[j])
  }

  lemma ElemsPrefix(s: seq<string>, i: int)
    requires 0 <= i < |s|
    ensures Elems(s[..i + 1]) == Elems(s[..i]) + {s[i]}
  {
    assert s[..i + 1] == s[..i] + [s[i]];
  }

  /** In a strictly sorted sequence no element repeats one before it. */
  lemma SortedFresh(s: seq<string>, i: int)
    requires StrictlySorted(s) && 0 <= i < |s|
    ensures s[i] !in Elems(s[..i])
  {
    LessIrreflexive(s[i]);
    forall k | 0 <= k < i
      ensures s[..i][k] != s[i]
    {
      assert Less(s[k], s[i]);
    }
  }

  /** `m` is the least element of `s`. */
  predicate IsLeast(m: string, s: set<string>)
  {
    m in s && forall y :: y in s && y != m ==> Less(m, y)
  }

  lemma {:induction false} LeastExists(s: set<string>)
    requires s != {}
    ensures exists m :: IsLeast(m, s)
    decreases |s|
  {
    var x :| x in s;
    if s != {x} {
      LeastExists(s - {x});
      var m :| IsLeast(m, s - {x});
      if Less(x, m) {
        forall y | y in s && y != x ensures Less(x, y) {
          if y != m { LessTransitive(x, m, y); }
        }
        assert IsLeast(x, s);
      } else {
        LessTotal(x, m);
        assert IsLeast(m, s);
      }
    } else {
      assert IsLeast(x, s);
    }
  }

  lemma PrependLeast(m: string, s: set<string>, rest: seq<string>)
    requires IsLeast(m, s)
    requires StrictlySorted(rest) && Elems(rest) == s - {m}
    ensures StrictlySorted([m] + rest) && Elems([m] + rest) == s
  {
    forall i, j | 0 <= i < j < |[m] + rest| ensures Less(([m] + rest)[i], ([m] + rest)[j]) {
      if i > 0 {
        assert ([m] + rest)[i] == rest[i - 1] && ([m] + rest)[j] == rest[j - 1];
      } else {
        assert ([m] + rest)[j] == rest[j - 1] && rest[j - 1] in Elems(rest);
      }
    }
    forall y ensures y in Elems([m] + rest) <==> y in s {
      assert y in [m] + rest <==> y == m || y in rest;
      assert y in rest <==> y in Elems(rest);
    }
  }

  /** The keys of `s` in ascending order: the order a BTreeMap iterates them in. */
  ghost function SortedSeq(s: set<string>): (r: seq<string>)
    ensures StrictlySorted(r) && Elems(r) == s && |r| == |s|
    decreases |s|
  {
    if s == {} then []
    else
      LeastExists(s);
      var m :| IsLeast(m, s);
      var rest := SortedSeq(s - {m});
      PrependLeast(m, s, rest);
      [m] + rest
  }

  lemma {:induction false} SortedUnique(a: seq<string>, b: seq<string>)
    requires StrictlySorted(a) && StrictlySorted(b) && Elems(a) == Elems(b)
    ensures a == b
    decreases |a|
  {
    ElemsEmpty(a);
    ElemsEmpty(b);
    if a != [] {
      if a[0] != b[0] {
        assert b[0] in Elems(a);
        var i :| 0 <= i < |a| && a[i] == b[0];
        assert a[0] in Elems(b);
        var j :| 0 <= j < |b| && b[j] == a[0];
        assert Less(a[0], a[i]) && Less(b[0], b[j]);
        LessAsymmetric(a[0], b[0]);
      }
      assert Elems(a[1..]) == Elems(b[1..]) by {
        forall y ensures y in Elems(a[1..]) <==> y in Elems(b[1..]) {
          if y in a[1..] {
            var i :| 0 <= i < |a[1..]| && a[1..][i] == y;
            assert Less(a[0], a[i + 1]);
            LessIrreflexive(y);
            assert y in Elems(a);
            var j :| 0 <= j < |b| && b[j] == y;
            assert j != 0;
            assert b[1..][j - 1] == y;
          }
          if y in b[1..] {
            var i :| 0 <= i < |b[1..]| && b[1..][i] == y;
            assert Less(b[0], b[i + 1]);
            LessIrreflexive(y);
            assert y in Elems(b);
            var j :| 0 <= j < |a| && a[j] == y;
            assert j != 0;
            assert a[1..][j - 1] == y;
          }
        }
      }
      SortedUnique(a[1..], b[1..]);
      assert a == [a[0]] + a[1..] && b == [b[0]] + b[1..];
    }
  }

  /** The selection loop's invariant: `keys` ascends and precedes every key still `remaining`. */
  ghost predicate Selected(keys: seq<string>, remaining: set<string>, all: set<string>)
  {
    && Elems(keys) + remaining == all
    && Elems(keys) !! remaining
    && StrictlySorted(keys)
    && forall i, y :: 0 <= i < |keys| && y in remaining ==> Less(keys[i], y)
  }

  lemma SelectStep(keys: seq<string>, remaining: set<string>, all: set<string>, k: string)
    requires Selected(keys, remaining, all) && IsLeast(k, remaining)
    ensures Selected(keys + [k], remaining - {k}, all)
  {
    var keys' := keys + [k];
    assert Elems(keys') == Elems(keys) + {k};
    forall i, j | 0 <= i < j < |keys'|
      ensures Less(keys'[i], keys'[j])
    {
      if j == |keys| {
        assert keys'[i] == keys[i];
      }
    }
  }

  /**
   Iterating the keys of a BTreeMap: the keys in ascending order, taking the
   least key not yet visited each time.
   */
  method SortedKeys<T>(m: map<string, T>) returns (keys: seq<string>)
    ensures StrictlySorted(keys) && Elems(keys) == m.Keys
    ensures keys == SortedSeq(m.Keys)
  {
    keys := [];
    var remaining := m.Keys;
    while remaining != {}
      invariant Selected(keys, remaining, m.Keys)
      decreases |remaining|
    {
      LeastExists(remaining);
      var k :| k in remaining && IsLeast(k, remaining);
      SelectStep(keys, remaining, m.Keys, k);
      keys := keys + [k];
      remaining := remaining - {k};
    }
    SortedUnique(keys, SortedSeq(m.Keys));
  }
}
