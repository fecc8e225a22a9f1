/** A Redis sorted set, as a value.

    A sorted set holds distinct members, each with a score. Redis keeps its
    elements ordered by score, and members with equal scores in lexicographic
    (byte-wise) order of the member; the rank of an element is its zero-based
    position in that order. The set is represented here directly by that
    order: a sequence of entries that is strictly increasing in (score, member)
    and in which no member occurs twice. The commands the collection handlers
    use (ZADD, ZREM, ZCARD, ZRANGE, and ZRANGEBYSCORE for the corrected lookup)
    are functions from the old set to the new set or to the reply. */
module SortedSet {

  datatype Entry = Entry(score: int, member: string)

  type ZSet = seq<Entry>

  // ----- Ordering -----

  /** Lexicographic order on strings, a proper prefix coming first. For
      JSON text this agrees with Redis's byte-wise comparison of the UTF-8
      encoding, since UTF-8 preserves the order of code points. */
  predicate StrLess(a: string, b: string)
  {
    if |a| == 0 then |b| > 0
    else |b| > 0 && (a[0] < b[0] || (a[0] == b[0] && StrLess(a[1..], b[1..])))
  }

  lemma {:induction false} StrLessAsymmetric(a: string, b: string)
    requires StrLess(a, b)
    ensures !StrLess(b, a)
  {
    if |a| > 0 && a[0] == b[0] {
      StrLessAsymmetric(a[1..], b[1..]);
    }
  }

  lemma {:induction false} StrLessIrreflexive(a: string)
    ensures !StrLess(a, a)
  {
    if |a| > 0 {
      StrLessIrreflexive(a[1..]);
    }
  }

  lemma {:induction false} StrLessTransitive(a: string, b: string, c: string)
    requires StrLess(a, b) && StrLess(b, c)
    ensures StrLess(a, c)
  {
    if |a| > 0 && a[0] == b[0] && b[0] == c[0] {
      StrLessTransitive(a[1..], b[1..], c[1..]);
    }
  }

  lemma {:induction false} StrLessTotal(a: string, b: string)
    requires a != b
    ensures StrLess(a, b) || StrLess(b, a)
  {
    if |a| > 0 && |b| > 0 && a[0] == b[0] {
      assert a == [a[0]] + a[1..] && b == [b[0]] + b[1..];
      StrLessTotal(a[1..], b[1..]);
    }
  }

  /** The order of a sorted set: by score, then by member. */
  predicate EntryLess(x: Entry, y: Entry)
  {
    x.score < y.score || (x.score == y.score && StrLess(x.member, y.member))
  }

  lemma EntryLessAsymmetric(x: Entry, y: Entry)
    requires EntryLess(x, y)
    ensures !EntryLess(y, x)
  {
    if x.score == y.score {
      StrLessAsymmetric(x.member, y.member);
    }
  }

  lemma EntryLessTransitive(x: Entry, y: Entry, z: Entry)
    requires EntryLess(x, y) && EntryLess(y, z)
    ensures EntryLess(x, z)
  {
    if x.score == y.score == z.score {
      StrLessTransitive(x.member, y.member, z.member);
    }
  }

  lemma EntryLessTotal(x: Entry, y: Entry)
    requires x != y
    ensures EntryLess(x, y) || EntryLess(y, x)
  {
    if x.score == y.score {
      StrLessTotal(x.member, y.member);
    }
  }

  // ----- Well-formed sorted sets -----

  ghost predicate Sorted(z: ZSet)
  {
    forall i, j :: 0 <= i < j < |z| ==> EntryLess(z[i], z[j])
  }

  ghost predicate DistinctMembers(z: ZSet)
  {
    forall i, j :: 0 <= i < j < |z| ==> z[i].member != z[j].member
  }

  /** The representation invariant: Redis order, each member once. */
  ghost predicate Valid(z: ZSet)
  {
    Sorted(z) && DistinctMembers(z)
  }

  /** The members in rank order. */
  function Members(z: ZSet): (ms: seq<string>)
    ensures |ms| == |z|
    ensures forall i :: 0 <= i < |z| ==> ms[i] == z[i].member
  {
    if z == [] then [] else [z[0].member] + Members(z[1..])
  }

  lemma ValidCons(a: Entry, t: ZSet)
    ensures Valid([a] + t) <==>
      Valid(t) && forall x :: x in t ==> EntryLess(a, x) && x.member != a.member
  {
    var s := [a] + t;
    assert s[0] == a;
    assert forall i :: 0 < i < |s| ==> s[i] == t[i - 1];
    if Valid(s) {
      forall x | x in t ensures EntryLess(a, x) && x.member != a.member {
        var k :| 0 <= k < |t| && t[k] == x;
        assert s[k + 1] == x;
        assert EntryLess(s[0], s[k + 1]) && s[0].member != s[k + 1].member;
      }
      forall i, j | 0 <= i < j < |t| ensures EntryLess(t[i], t[j]) && t[i].member != t[j].member {
        assert s[i + 1] == t[i] && s[j + 1] == t[j];
      }
    }
    if Valid(t) && forall x :: x in t ==> EntryLess(a, x) && x.member != a.member {
      forall i, j | 0 <= i < j < |s| ensures EntryLess(s[i], s[j]) && s[i].member != s[j].member {
        if i == 0 {
          assert s[j] == t[j - 1] && t[j - 1] in t;
        } else {
          assert s[i] == t[i - 1] && s[j] == t[j - 1];
        }
      }
    }
  }

  lemma ValidTail(z: ZSet)
    requires Valid(z) && z != []
    ensures Valid(z[1..])
    ensures forall x :: x in z[1..] ==> EntryLess(z[0], x) && x.member != z[0].member
  {
    assert z == [z[0]] + z[1..];
    ValidCons(z[0], z[1..]);
  }

  /** Two well-formed sorted sets holding the same entries are the same
      sequence: the order is determined by the elements alone, so a command
      is fully described by the entries it leaves. */
  lemma {:induction false} ValidDetermined(a: ZSet, b: ZSet)
    requires Valid(a) && Valid(b)
    requires forall x :: x in a <==> x in b
    ensures a == b
  {
    // Neither is empty unless both are.
    assert a != [] ==> a[0] in b;
    assert b != [] ==> b[0] in a;
    if a != [] && b != [] {
      ValidTail(a);
      ValidTail(b);
      assert a == [a[0]] + a[1..] && b == [b[0]] + b[1..];
      if a[0] != b[0] {
        assert b[0] in b && a[0] in a;
        assert b[0] in a[1..];
        assert a[0] in b[1..];
        EntryLessAsymmetric(a[0], b[0]);
        assert false;
      }
      forall x ensures x in a[1..] <==> x in b[1..] {
        if x in a[1..] {
          assert x in a && x != a[0];
        }
        if x in b[1..] {
          assert x in b && x != b[0];
        }
      }
      ValidDetermined(a[1..], b[1..]);
      assert a == [a[0]] + a[1..] && b == [b[0]] + b[1..];
    }
  }

  // ----- Insertion at the place the order dictates -----

  function Insert(z: ZSet, e: Entry): (r: ZSet)
    ensures |r| == |z| + 1
    ensures forall x :: x in r <==> x in z || x == e
  {
    if z == [] then [e]
    else if EntryLess(e, z[0]) then [e] + z
    else [z[0]] + Insert(z[1..], e)
  }

  lemma {:induction false} InsertValid(z: ZSet, e: Entry)
    requires Valid(z)
    requires e.member !in Members(z)
    ensures Valid(Insert(z, e))
  {
    if z == [] {
    } else if EntryLess(e, z[0]) {
      ValidTail(z);
      forall x | x in z ensures EntryLess(e, x) && x.member != e.member {
        if x != z[0] {
          EntryLessTransitive(e, z[0], x);
        }
        var k :| 0 <= k < |z| && z[k] == x;
        assert Members(z)[k] == x.member;
      }
      ValidCons(e, z);
    } else {
      ValidTail(z);
      assert e.member != Members(z)[0];
      EntryLessTotal(e, z[0]);
      forall k | 0 <= k < |z| - 1 ensures Members(z[1..])[k] != e.member {
        assert Members(z)[k + 1] == z[k + 1].member;
      }
      InsertValid(z[1..], e);
      ValidCons(z[0], Insert(z[1..], e));
    }
  }

  /** An entry greater than every element goes last. */
  lemma {:induction false} InsertAtEnd(z: ZSet, e: Entry)
    requires forall x :: x in z ==> EntryLess(x, e)
    ensures Insert(z, e) == z + [e]
  {
    if z != [] {
      assert z[0] in z;
      EntryLessAsymmetric(z[0], e);
      InsertAtEnd(z[1..], e);
      assert z == [z[0]] + z[1..];
    }
  }

  // ----- ZREM: remove by member -----

  /** ZREM key member. The member argument is compared with members, never
      with scores; a member that is not in the set is ignored. */
  function ZRem(z: ZSet, m: string): (r: ZSet)
    ensures forall x :: x in r <==> x in z && x.member != m
    ensures m !in Members(r)
    ensures m !in Members(z) ==> r == z
  {
    if z == [] then []
    else
      assert forall k :: 0 <= k < |z| - 1 ==> Members(z[1..])[k] == Members(z)[k + 1];
      if z[0].member == m then ZRem(z[1..], m) else [z[0]] + ZRem(z[1..], m)
  }

  lemma {:induction false} ZRemValid(z: ZSet, m: string)
    requires Valid(z)
    ensures Valid(ZRem(z, m))
  {
    if z != [] {
      ValidTail(z);
      ZRemValid(z[1..], m);
      if z[0].member != m {
        ValidCons(z[0], ZRem(z[1..], m));
      }
    }
  }

  /** ZREM removes exactly one element when the member is present and none
      otherwise. */
  lemma {:induction false} ZRemCard(z: ZSet, m: string)
    requires DistinctMembers(z)
    ensures |ZRem(z, m)| == if m in Members(z) then |z| - 1 else |z|
  {
    if z != [] {
      var t := z[1..];
      assert DistinctMembers(t) by {
        forall i, j | 0 <= i < j < |t| ensures t[i].member != t[j].member {
          assert t[i] == z[i + 1] && t[j] == z[j + 1];
        }
      }
      ZRemCard(t, m);
      assert forall k :: 0 <= k < |t| ==> Members(t)[k] == Members(z)[k + 1];
      if z[0].member == m {
        forall k | 0 <= k < |t| ensures Members(t)[k] != m {
          assert Members(z)[k + 1] == z[k + 1].member;
        }
      } else {
        assert m in Members(z) ==> m in Members(t) by {
          if m in Members(z) {
            var k :| 0 <= k < |z| && Members(z)[k] == m;
            assert k > 0 && Members(t)[k - 1] == m;
          }
        }
      }
    }
  }

  /** Removing the member at rank k closes the gap: the elements before and
      after it keep their order. */
  lemma {:induction false} ZRemAtRank(z: ZSet, k: nat)
    requires Valid(z) && k < |z|
    ensures ZRem(z, z[k].member) == z[..k] + z[k + 1..]
  {
    var m := z[k].member;
    var t := z[1..];
    if k == 0 {
      assert m !in Members(t) by {
        ValidTail(z);
        forall i | 0 <= i < |t| ensures Members(t)[i] != m {
          assert t[i] in t;
        }
      }
      calc {
        ZRem(z, m);
        ZRem(t, m);
        t;
        z[..k] + z[k + 1..];
      }
    } else {
      assert Valid(t) by { ValidTail(z); }
      assert t[k - 1] == z[k];
      ZRemAtRank(t, k - 1);
      assert z[0].member != m;
      assert ZRem(z, m) == [z[0]] + ZRem(t, m);
      CutBehindHead(z, k);
    }
  }

  lemma CutBehindHead(z: ZSet, k: nat)
    requires 0 < k < |z|
    ensures z[..k] + z[k + 1..] == [z[0]] + (z[1..][..k - 1] + z[1..][k..])
  {
  }

  // ----- ZADD: insert, or move an existing member to its new score -----

  /** ZADD key score member. */
  function ZAdd(z: ZSet, score: int, m: string): (r: ZSet)
    ensures forall x :: x in r <==> (x in z && x.member != m) || x == Entry(score, m)
  {
    Insert(ZRem(z, m), Entry(score, m))
  }

  /** ZADD keeps the set well formed, leaves the member at the given score,
      grows the set by one exactly when the member is new, and the result is
      the only well-formed set with those elements. */
  lemma ZAddSpec(z: ZSet, score: int, m: string)
    requires Valid(z)
    ensures Valid(ZAdd(z, score, m))
    ensures |ZAdd(z, score, m)| == if m in Members(z) then |z| else |z| + 1
    ensures forall r :: Valid(r) && (forall x :: x in r <==> (x in z && x.member != m) || x == Entry(score, m))
              ==> r == ZAdd(z, score, m)
  {
    ZRemValid(z, m);
    ZRemCard(z, m);
    InsertValid(ZRem(z, m), Entry(score, m));
    forall r | Valid(r) && (forall x :: x in r <==> (x in z && x.member != m) || x == Entry(score, m))
      ensures r == ZAdd(z, score, m)
    {
      ValidDetermined(r, ZAdd(z, score, m));
    }
  }

  /** ZREM keeps the set well formed. */
  lemma ZRemSpec(z: ZSet, m: string)
    requires Valid(z)
    ensures Valid(ZRem(z, m))
    ensures |ZRem(z, m)| == if m in Members(z) then |z| - 1 else |z|
  {
    ZRemValid(z, m);
    ZRemCard(z, m);
  }

  // ----- ZCARD -----

  /** ZCARD key: the number of elements (0 for a key that was never
      written). */
  function ZCard(z: ZSet): (n: nat)
    ensures n == |Members(z)|
  {
    |z|
  }

  /** The distinct members of a set. */
  ghost function MemberSet(z: ZSet): set<string>
  {
    set x | x in z :: x.member
  }

  /** On a well-formed set, ZCARD counts the distinct members. */
  lemma {:induction false} ZCardCountsMembers(z: ZSet)
    requires Valid(z)
    ensures ZCard(z) == |MemberSet(z)|
  {
    if z != [] {
      ValidTail(z);
      ZCardCountsMembers(z[1..]);
      assert z == [z[0]] + z[1..];
      assert MemberSet(z) == {z[0].member} + MemberSet(z[1..]);
    }
  }

  // ----- ZRANGE: select by rank -----

  /** ZRANGE key start stop. A negative index counts from the end (-1 is the
      last element); after that adjustment a start below 0 becomes 0, a stop
      past the end becomes the last rank, and an empty interval or a start
      past the end gives an empty reply. Both ends are inclusive. */
  function ZRange(z: ZSet, start: int, stop: int): (r: seq<string>)
    ensures |r| <= |z|
    ensures forall m :: m in r ==> m in Members(z)
    ensures start == 0 && stop == -1 ==> r == Members(z)
    ensures start == stop && 0 <= start < |z| ==> r == [z[start].member]
    ensures start == stop && -|z| <= start < 0 ==> r == [z[|z| + start].member]
    ensures start == stop && (start >= |z| || start < -|z|) ==> r == []
  {
    var n := |z|;
    var lo := if start < 0 then n + start else start;
    var hi := if stop < 0 then n + stop else stop;
    var lo' := if lo < 0 then 0 else lo;
    if lo' > hi || lo' >= n then []
    else
      var hi' := if hi >= n then n - 1 else hi;
      Members(z)[lo'..hi' + 1]
  }

  // ----- ZRANGEBYSCORE: select by score -----

  /** The elements whose score lies in [min, max], in rank order. */
  function ScoreBand(z: ZSet, min: int, max: int): (r: ZSet)
    ensures forall x :: x in r <==> x in z && min <= x.score <= max
  {
    if z == [] then []
    else if min <= z[0].score <= max then [z[0]] + ScoreBand(z[1..], min, max)
    else ScoreBand(z[1..], min, max)
  }

  /** ZRANGEBYSCORE key min max. */
  function ZRangeByScore(z: ZSet, min: int, max: int): (r: seq<string>)
    ensures forall m :: m in r <==> exists i :: 0 <= i < |z| && z[i].member == m && min <= z[i].score <= max
  {
    var b := ScoreBand(z, min, max);
    assert forall m :: m in Members(b) <==> exists i :: 0 <= i < |b| && b[i].member == m;
    Members(b)
  }

  lemma {:induction false} ScoreBandValid(z: ZSet, min: int, max: int)
    requires Valid(z)
    ensures Valid(ScoreBand(z, min, max))
  {
    if z != [] {
      ValidTail(z);
      ScoreBandValid(z[1..], min, max);
      if min <= z[0].score <= max {
        ValidCons(z[0], ScoreBand(z[1..], min, max));
      }
    }
  }

  /** Adding an element outside the score interval does not change what the
      interval selects. */
  lemma {:induction false} ScoreBandInsert(z: ZSet, e: Entry, min: int, max: int)
    requires !(min <= e.score <= max)
    ensures ScoreBand(Insert(z, e), min, max) == ScoreBand(z, min, max)
  {
    if z != [] && !EntryLess(e, z[0]) {
      ScoreBandInsert(z[1..], e, min, max);
    }
  }

  /** Removing a member that lies outside the score interval does not change
      what the interval selects. */
  lemma {:induction false} ScoreBandRem(z: ZSet, m: string, min: int, max: int)
    requires forall x :: x in z && x.member == m ==> !(min <= x.score <= max)
    ensures ScoreBand(ZRem(z, m), min, max) == ScoreBand(z, min, max)
  {
    if z != [] {
      assert z[0] in z;
      ScoreBandRem(z[1..], m, min, max);
    }
  }
}
