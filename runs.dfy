/** Sequences of requests on one collection key: how ids come out of a run
    of creates, when the rank lookup used by Get, Update and Delete finds the
    resource with that id, and how it stops doing so. */
module Runs {

  import opened Wrappers
  import opened SortedSet
  import opened Resources
  import opened Handlers

  /** The scores are exactly 1, 2, ..., n in rank order. */
  ghost predicate Dense(z: ZSet)
  {
    forall i :: 0 <= i < |z| ==> z[i].score == i + 1
  }

  /** While the scores are exactly 1..n, the element at rank id - 1 is the
      element with score id, so the rank lookup and a lookup by score
      agree. */
  lemma DenseRankIsScore(z: ZSet, id: int)
    requires Valid(z) && Dense(z) && 1 <= id <= |z|
    ensures GetStep(z, id).response == Success(200, Items([z[id - 1].member]))
    ensures GetByScoreStep(z, id).response == GetStep(z, id).response
  {
    var b := ScoreBand(z, id, id);
    ScoreBandValid(z, id, id);
    forall x ensures x in b <==> x in [z[id - 1]] {
      if x in z {
        var k :| 0 <= k < |z| && z[k] == x;
      }
    }
    ValidDetermined(b, [z[id - 1]]);
    assert Members(b) == [z[id - 1].member];
    assert ZRangeByScore(z, id, id) == Members(b);
  }

  /** A run of requests: the set it leaves, the responses in order, and the
      events in order. */
  datatype Run = Run(zset: ZSet, responses: seq<Response>, events: seq<Event>)

  /** POST requests on one key, one after another, nothing else in
      between. */
  function CreateRun(z: ZSet, bodies: seq<Option<Resource>>, serialize: Resource -> string): (r: Run)
    ensures |r.responses| == |bodies| && |r.events| == |bodies|
    decreases |bodies|
  {
    if bodies == [] then Run(z, [], [])
    else
      var before := CreateRun(z, bodies[..|bodies| - 1], serialize);
      var st := CreateStep(before.zset, bodies[|bodies| - 1], serialize);
      Run(st.zset, before.responses + [st.response], before.events + st.emitted)
  }

  /** The object that the k-th create (from 0) of a run on a fresh key
      stores, answers and emits. */
  function Created(bodies: seq<Option<Resource>>, k: nat): Resource
    requires k < |bodies|
  {
    WithId(RequestObject(bodies[k]), Num(k + 1))
  }

  /** The set that n creates on a fresh key should leave: the texts of the
      created objects at scores 1..n. */
  function Expected(bodies: seq<Option<Resource>>, serialize: Resource -> string): (z: ZSet)
    ensures |z| == |bodies|
  {
    seq(|bodies|, k requires 0 <= k < |bodies| => Entry(k + 1, serialize(Created(bodies, k))))
  }

  lemma ExpectedValid(bodies: seq<Option<Resource>>, serialize: Resource -> string)
    requires IsSerializer(serialize)
    ensures var z := Expected(bodies, serialize);
      Valid(z) && ObjectMembers(z) && Dense(z)
  {
    var z := Expected(bodies, serialize);
    forall i, j | 0 <= i < j < |z| ensures z[i].member != z[j].member {
      assert Created(bodies, i).fields["id"] != Created(bodies, j).fields["id"];
    }
  }

  /** The next created object's text is new: its id differs from every
      stored object's id. */
  lemma ExpectedFresh(bodies: seq<Option<Resource>>, serialize: Resource -> string)
    requires IsSerializer(serialize) && bodies != []
    ensures var n := |bodies| - 1;
      serialize(Created(bodies, n)) !in Members(Expected(bodies[..n], serialize))
  {
    var n := |bodies| - 1;
    var z := Expected(bodies[..n], serialize);
    forall i | 0 <= i < n ensures Members(z)[i] != serialize(Created(bodies, n)) {
      assert Created(bodies[..n], i).fields["id"] != Created(bodies, n).fields["id"];
    }
  }

  /** On a set with scores 1..n, a create whose text is new goes last, at
      score n + 1. */
  lemma CreateAppends(z: ZSet, body: Option<Resource>, serialize: Resource -> string)
    requires Valid(z) && ObjectMembers(z) && Dense(z) && IsSerializer(serialize)
    requires serialize(WithId(RequestObject(body), Num(|z| + 1))) !in Members(z)
    ensures CreateStep(z, body, serialize).zset == z + [Entry(|z| + 1, serialize(WithId(RequestObject(body), Num(|z| + 1))))]
  {
    var e := Entry(|z| + 1, serialize(WithId(RequestObject(body), Num(|z| + 1))));
    forall x | x in z ensures EntryLess(x, e) {
      var i :| 0 <= i < |z| && z[i] == x;
    }
    InsertAtEnd(z, e);
  }

  lemma RunSnoc(bodies: seq<Option<Resource>>, serialize: Resource -> string)
    requires bodies != []
    ensures var n := |bodies| - 1;
      CreateRun([], bodies, serialize).zset == CreateStep(CreateRun([], bodies[..n], serialize).zset, bodies[n], serialize).zset
  {
  }

  lemma ExpectedSnoc(bodies: seq<Option<Resource>>, serialize: Resource -> string)
    requires bodies != []
    ensures var n := |bodies| - 1;
      && Expected(bodies, serialize) == Expected(bodies[..n], serialize) + [Entry(n + 1, serialize(Created(bodies, n)))]
      && Created(bodies, n) == WithId(RequestObject(bodies[n]), Num(|Expected(bodies[..n], serialize)| + 1))
  {
    var n := |bodies| - 1;
    assert forall k :: 0 <= k < n ==> Created(bodies[..n], k) == Created(bodies, k);
  }

  /** A run of creates on a never-written key leaves the created objects at
      scores 1, 2, 3, ... in that order. */
  lemma {:induction false} CreateRunSet(bodies: seq<Option<Resource>>, serialize: Resource -> string)
    requires IsSerializer(serialize)
    ensures CreateRun([], bodies, serialize).zset == Expected(bodies, serialize)
    decreases |bodies|
  {
    if bodies != [] {
      CreateRunSet(bodies[..|bodies| - 1], serialize);
      RunSnoc(bodies, serialize);
      ExpectedStep(bodies, serialize);
    }
  }

  /** One more create on the expected set gives the expected set of the
      longer run. */
  lemma ExpectedStep(bodies: seq<Option<Resource>>, serialize: Resource -> string)
    requires IsSerializer(serialize) && bodies != []
    ensures var n := |bodies| - 1;
      CreateStep(Expected(bodies[..n], serialize), bodies[n], serialize).zset == Expected(bodies, serialize)
  {
    var n := |bodies| - 1;
    var init := bodies[..n];
    ExpectedSnoc(bodies, serialize);
    ExpectedValid(init, serialize);
    ExpectedFresh(bodies, serialize);
    CreateAppends(Expected(init, serialize), bodies[n], serialize);
  }

  /** A run of creates on a never-written key leaves one element per
      create. */
  lemma CreateRunCard(bodies: seq<Option<Resource>>, serialize: Resource -> string)
    requires IsSerializer(serialize)
    ensures |CreateRun([], bodies, serialize).zset| == |bodies|
  {
    CreateRunSet(bodies, serialize);
  }

  /** The last create of a run answers 201 with its body plus the id one
      past the set it found, and emits POST with that object. */
  lemma CreateRunLast(bodies: seq<Option<Resource>>, serialize: Resource -> string)
    requires bodies != [] && |CreateRun([], bodies[..|bodies| - 1], serialize).zset| == |bodies| - 1
    ensures var r := CreateRun([], bodies, serialize); var n := |bodies| - 1;
      && r.responses[n] == Success(201, Object(WithId(RequestObject(bodies[n]), Num(n + 1))))
      && r.events[n] == Event(POST, Object(WithId(RequestObject(bodies[n]), Num(n + 1))))
  {
  }

  lemma CreateRunPrefix(bodies: seq<Option<Resource>>, serialize: Resource -> string, k: nat)
    requires k < |bodies| - 1
    ensures var r := CreateRun([], bodies, serialize); var before := CreateRun([], bodies[..|bodies| - 1], serialize);
      r.responses[k] == before.responses[k] && r.events[k] == before.events[k]
  {
  }

  /** The k-th create (from 0) of a run on a never-written key answers 201
      with the object it created, which has id k + 1, and emits one POST
      event carrying it. */
  lemma {:induction false} CreateRunReply(bodies: seq<Option<Resource>>, serialize: Resource -> string, k: nat)
    requires IsSerializer(serialize) && k < |bodies|
    ensures var r := CreateRun([], bodies, serialize);
      && r.responses[k] == Success(201, Object(WithId(RequestObject(bodies[k]), Num(k + 1))))
      && r.events[k] == Event(POST, Object(WithId(RequestObject(bodies[k]), Num(k + 1))))
    decreases |bodies|
  {
    var n := |bodies| - 1;
    var init := bodies[..n];
    if k == n {
      CreateRunCard(init, serialize);
      CreateRunLast(bodies, serialize);
    } else {
      CreateRunReply(init, serialize, k);
      assert bodies[k] == init[k];
      CreateRunPrefix(bodies, serialize, k);
    }
  }

  /** A run of creates on a never-written key hands out ids 1, 2, 3, ... in
      order; each response and each POST event carries the created object;
      and the element at rank k - 1 is the k-th object at score k. */
  lemma CreateRunFromEmpty(bodies: seq<Option<Resource>>, serialize: Resource -> string)
    requires IsSerializer(serialize)
    ensures var r := CreateRun([], bodies, serialize);
      && Valid(r.zset) && ObjectMembers(r.zset) && Dense(r.zset) && |r.zset| == |bodies|
      && forall k :: 0 <= k < |bodies| ==>
           && r.zset[k] == Entry(k + 1, serialize(Created(bodies, k)))
           && r.responses[k] == Success(201, Object(Created(bodies, k)))
           && r.events[k] == Event(POST, Object(Created(bodies, k)))
  {
    CreateRunSet(bodies, serialize);
    ExpectedValid(bodies, serialize);
    forall k | 0 <= k < |bodies|
      ensures CreateRun([], bodies, serialize).responses[k] == Success(201, Object(Created(bodies, k)))
      ensures CreateRun([], bodies, serialize).events[k] == Event(POST, Object(Created(bodies, k)))
    {
      CreateRunReply(bodies, serialize, k);
    }
  }

  /** After n creates on a fresh key, Get of each id 1..n answers the text
      of the object created with that id, by rank and by score alike. */
  lemma CreateRunLookup(bodies: seq<Option<Resource>>, serialize: Resource -> string, id: int)
    requires IsSerializer(serialize)
    requires 1 <= id <= |bodies|
    ensures var z := CreateRun([], bodies, serialize).zset;
      && GetStep(z, id).response == Success(200, Items([serialize(Created(bodies, id - 1))]))
      && GetByScoreStep(z, id).response == GetStep(z, id).response
  {
    CreateRunSet(bodies, serialize);
    ExpectedLookup(bodies, serialize, id);
  }

  /** The same lookups on the set the run is proved to leave. */
  lemma ExpectedLookup(bodies: seq<Option<Resource>>, serialize: Resource -> string, id: int)
    requires IsSerializer(serialize)
    requires 1 <= id <= |bodies|
    ensures var z := Expected(bodies, serialize);
      && GetStep(z, id).response == Success(200, Items([serialize(Created(bodies, id - 1))]))
      && GetByScoreStep(z, id).response == GetStep(z, id).response
  {
    ExpectedValid(bodies, serialize);
    LookupOnDense(Expected(bodies, serialize), id, serialize(Created(bodies, id - 1)));
  }

  /** After n creates on a never-written key the next create gets
      id n + 1. */
  lemma CreateRunNextId(bodies: seq<Option<Resource>>, serialize: Resource -> string, next: Option<Resource>)
    requires IsSerializer(serialize)
    ensures CreateStep(CreateRun([], bodies, serialize).zset, next, serialize).response.data.obj.fields["id"] == Num(|bodies| + 1)
  {
    CreateRunCard(bodies, serialize);
    NextCreateId(CreateRun([], bodies, serialize).zset, next, serialize);
  }

  /** On a set with scores 1..n, Get of id in 1..n answers the member at
      score id by rank and by score alike. */
  lemma LookupOnDense(z: ZSet, id: int, m: string)
    requires Valid(z) && Dense(z) && 1 <= id <= |z| && z[id - 1] == Entry(id, m)
    ensures GetStep(z, id).response == Success(200, Items([m]))
    ensures GetByScoreStep(z, id).response == GetStep(z, id).response
  {
    DenseRankIsScore(z, id);
  }

  /** A create answers the object with id one past the cardinality. */
  lemma NextCreateId(z: ZSet, body: Option<Resource>, serialize: Resource -> string)
    ensures CreateStep(z, body, serialize).response.data.obj.fields["id"] == Num(|z| + 1)
  {
  }

  /** In a sorted set of three elements whose greatest is c, c is at rank 2
      and one of the other two is at rank 1. */
  lemma LastOfThree(z: ZSet, a: Entry, b: Entry, c: Entry)
    requires Sorted(z) && |z| == 3
    requires forall x :: x in z <==> x == a || x == b || x == c
    requires EntryLess(a, c) && EntryLess(b, c)
    ensures z[2] == c && (z[1] == a || z[1] == b)
  {
    assert z[1] in z && z[2] in z && c in z;
    var i :| 0 <= i < 3 && z[i] == c;
    assert i < 2 ==> EntryLess(c, z[2]);
    EntryLessAsymmetric(a, c);
    EntryLessAsymmetric(b, c);
    StrLessIrreflexive(c.member);
    assert EntryLess(z[1], z[2]);
  }

  /** Two creates on a never-written key store the objects with ids 1 and
      2 at scores 1 and 2. */
  lemma TwoCreates(b1: Option<Resource>, b2: Option<Resource>, serialize: Resource -> string)
    requires IsSerializer(serialize)
    ensures CreateRun([], [b1, b2], serialize).zset ==
      [Entry(1, serialize(WithId(RequestObject(b1), Num(1)))), Entry(2, serialize(WithId(RequestObject(b2), Num(2))))]
  {
    var bodies := [b1, b2];
    CreateRunSet(bodies, serialize);
    var e := Expected(bodies, serialize);
    assert e[0] == Entry(1, serialize(WithId(RequestObject(b1), Num(1))));
    assert e[1] == Entry(2, serialize(WithId(RequestObject(b2), Num(2))));
    assert e == [e[0], e[1]];
  }

  /** The set those two creates leave is well formed, holds object texts,
      and has scores exactly 1, 2. */
  lemma TwoCreatedValid(z2: ZSet, b1: Option<Resource>, b2: Option<Resource>, serialize: Resource -> string)
    requires IsSerializer(serialize)
    requires z2 == [Entry(1, serialize(WithId(RequestObject(b1), Num(1)))), Entry(2, serialize(WithId(RequestObject(b2), Num(2))))]
    ensures Valid(z2) && ObjectMembers(z2) && Dense(z2)
  {
    assert WithId(RequestObject(b1), Num(1)).fields["id"] != WithId(RequestObject(b2), Num(2)).fields["id"];
    assert EntryLess(z2[0], z2[1]);
  }

  /** ZADD of a new member at score 1 into a set with scores 1 and 2 puts
      it at rank 0 or 1 and pushes the score-2 element to rank 2. */
  lemma AddAtOne(z2: ZSet, m1: string, m2: string, m3: string)
    requires Valid(z2) && |z2| == 2 && z2[0] == Entry(1, m1) && z2[1] == Entry(2, m2)
    requires m3 != m1 && m3 != m2
    ensures var z3 := ZAdd(z2, 1, m3);
      |z3| == 3 && z3[2] == Entry(2, m2) && (z3[1] == Entry(1, m1) || z3[1] == Entry(1, m3))
  {
    assert Members(z2) == [m1, m2];
    ZAddSpec(z2, 1, m3);
    var z3 := ZAdd(z2, 1, m3);
    assert forall x :: x in z2 <==> x == Entry(1, m1) || x == Entry(2, m2);
    LastOfThree(z3, Entry(1, m1), Entry(1, m3), Entry(2, m2));
  }

  /** The set after the PUT of id 1 in that scenario: three elements, the
      score-2 element last, and nothing stored under the new text at
      score 2. */
  lemma UpdateOneSet(z2: ZSet, b1: Option<Resource>, b2: Option<Resource>, b3: Option<Resource>,
                     serialize: Resource -> string)
    requires IsSerializer(serialize)
    requires z2 == [Entry(1, serialize(WithId(RequestObject(b1), Num(1)))), Entry(2, serialize(WithId(RequestObject(b2), Num(2))))]
    ensures var m2 := serialize(WithId(RequestObject(b2), Num(2)));
      var m3 := serialize(WithId(RequestObject(b3), Str(IntText(1))));
      var z3 := UpdateStep(z2, 1, b3, serialize).zset;
      && z3 == ZAdd(z2, 1, m3)
      && |z3| == 3 && z3[2] == Entry(2, m2) && z3[1].member != m2
      && (forall x :: x in z2 && x.member == m3 ==> x.score != 2)
  {
    var o1, o2 := WithId(RequestObject(b1), Num(1)), WithId(RequestObject(b2), Num(2));
    var m1, m2 := serialize(o1), serialize(o2);
    var o3 := WithId(RequestObject(b3), Str(IntText(1)));
    var m3 := serialize(o3);
    assert m3 != m1 && m3 != m2 by {
      assert o1.fields["id"] != o3.fields["id"] && o2.fields["id"] != o3.fields["id"];
    }
    TwoCreatedValid(z2, b1, b2, serialize);
    AddAtOne(z2, m1, m2, m3);
  }

  /** The rank lookup of an id in 1..n answers the member at rank id - 1. */
  lemma GetAtRank(z: ZSet, id: int)
    requires 1 <= id <= |z|
    ensures GetStep(z, id).response == Success(200, Items([z[id - 1].member]))
  {
  }

  /** The scenario of UpdateShiftsRanks on the set left by the two
      creates. */
  lemma UpdateShiftsRanksOn(z2: ZSet, b1: Option<Resource>, b2: Option<Resource>, b3: Option<Resource>,
                            serialize: Resource -> string, b4: Option<Resource>)
    requires IsSerializer(serialize)
    requires z2 == [Entry(1, serialize(WithId(RequestObject(b1), Num(1)))), Entry(2, serialize(WithId(RequestObject(b2), Num(2))))]
    ensures var z3 := UpdateStep(z2, 1, b3, serialize).zset;
      var second := serialize(WithId(RequestObject(b2), Num(2)));
      && GetStep(z2, 2).response == Success(200, Items([second]))
      && GetStep(z3, 2).response != GetStep(z2, 2).response
      && GetStep(z3, 3).response == Success(200, Items([second]))
      && GetByScoreStep(z3, 2).response == GetByScoreStep(z2, 2).response
      && CreateStep(z3, b4, serialize).response.data.obj.fields["id"] == Num(4)
  {
    UpdateOneSet(z2, b1, b2, b3, serialize);
    var z3 := UpdateStep(z2, 1, b3, serialize).zset;
    GetAtRank(z2, 2);
    GetAtRank(z3, 2);
    GetAtRank(z3, 3);
    GetByScoreStable(z2, 2, 1, serialize(WithId(RequestObject(b3), Str(IntText(1)))));
  }

  /** An update makes the rank lookup miss. Create two resources, then PUT
      id 1: the update adds a second element at score 1, so rank 1 now holds
      a score-1 element, Get of id 2 no longer answers resource 2, Get of id
      3 answers it instead, and the next create skips id 3. A lookup by
      score still answers resource 2 for id 2. */
  lemma UpdateShiftsRanks(b1: Option<Resource>, b2: Option<Resource>, b3: Option<Resource>,
                          serialize: Resource -> string, b4: Option<Resource>)
    requires IsSerializer(serialize)
    ensures var z2 := CreateRun([], [b1, b2], serialize).zset;
      var z3 := UpdateStep(z2, 1, b3, serialize).zset;
      var second := serialize(WithId(RequestObject(b2), Num(2)));
      && GetStep(z2, 2).response == Success(200, Items([second]))
      && GetStep(z3, 2).response != GetStep(z2, 2).response
      && GetStep(z3, 3).response == Success(200, Items([second]))
      && GetByScoreStep(z3, 2).response == GetByScoreStep(z2, 2).response
      && CreateStep(z3, b4, serialize).response.data.obj.fields["id"] == Num(4)
  {
    TwoCreates(b1, b2, serialize);
    UpdateShiftsRanksOn(CreateRun([], [b1, b2], serialize).zset, b1, b2, b3, serialize, b4);
  }

  /** The set after the PUT of id 4 in that scenario: the new text at
      score 4, and three elements. */
  lemma UpdateFourSet(z2: ZSet, b1: Option<Resource>, b2: Option<Resource>, b3: Option<Resource>,
                      serialize: Resource -> string)
    requires IsSerializer(serialize)
    requires z2 == [Entry(1, serialize(WithId(RequestObject(b1), Num(1)))), Entry(2, serialize(WithId(RequestObject(b2), Num(2))))]
    ensures var put := UpdateStep(z2, 4, b3, serialize);
      var m3 := serialize(WithId(RequestObject(b3), Str(IntText(4))));
      && put.response.Success?
      && Valid(put.zset) && ObjectMembers(put.zset)
      && Entry(4, m3) in put.zset && |put.zset| == 3
  {
    var o1, o2 := WithId(RequestObject(b1), Num(1)), WithId(RequestObject(b2), Num(2));
    var o3 := WithId(RequestObject(b3), Str(IntText(4)));
    var m3 := serialize(o3);
    assert m3 !in Members(z2) by {
      assert o1.fields["id"] != o3.fields["id"] && o2.fields["id"] != o3.fields["id"];
      assert Members(z2) == [serialize(o1), serialize(o2)];
    }
    TwoCreatedValid(z2, b1, b2, serialize);
    UpdateSpec(z2, 4, b3, serialize);
    assert UpdateStep(z2, 4, b3, serialize).zset == ZAdd(z2, 4, m3);
    ZAddSpec(z2, 4, m3);
  }

  /** A create on a well-formed set of three object texts, one of them the
      PUT text at score 4, is given id 4 and keeps the PUT text. */
  lemma CreateOnThree(z: ZSet, b3: Option<Resource>, b4: Option<Resource>, serialize: Resource -> string)
    requires IsSerializer(serialize) && Valid(z) && ObjectMembers(z) && |z| == 3
    requires Entry(4, serialize(WithId(RequestObject(b3), Str(IntText(4))))) in z
    ensures var post := CreateStep(z, b4, serialize);
      && post.response.data.obj.fields["id"] == Num(4)
      && Entry(4, serialize(post.response.data.obj)) in post.zset
      && Entry(4, serialize(WithId(RequestObject(b3), Str(IntText(4))))) in post.zset
      && serialize(post.response.data.obj) != serialize(WithId(RequestObject(b3), Str(IntText(4))))
  {
    var o3 := WithId(RequestObject(b3), Str(IntText(4)));
    var o4 := WithId(RequestObject(b4), Num(4));
    assert serialize(o4) != serialize(o3) by {
      assert o4.fields["id"] != o3.fields["id"];
    }
    CreateSpec(z, b4, serialize);
  }

  /** The scenario of CreateCollidesAfterUpdate on the set left by the two
      creates. */
  lemma CreateCollidesAfterUpdateOn(z2: ZSet, b1: Option<Resource>, b2: Option<Resource>, b3: Option<Resource>,
                                    b4: Option<Resource>, serialize: Resource -> string)
    requires IsSerializer(serialize)
    requires z2 == [Entry(1, serialize(WithId(RequestObject(b1), Num(1)))), Entry(2, serialize(WithId(RequestObject(b2), Num(2))))]
    ensures var put := UpdateStep(z2, 4, b3, serialize);
      var post := CreateStep(put.zset, b4, serialize);
      && put.response.Success?
      && Entry(4, serialize(WithId(RequestObject(b3), Str(IntText(4))))) in put.zset
      && post.response.data.obj.fields["id"] == Num(4)
      && Entry(4, serialize(post.response.data.obj)) in post.zset
      && Entry(4, serialize(WithId(RequestObject(b3), Str(IntText(4))))) in post.zset
      && serialize(post.response.data.obj) != serialize(WithId(RequestObject(b3), Str(IntText(4))))
  {
    UpdateFourSet(z2, b1, b2, b3, serialize);
    CreateOnThree(UpdateStep(z2, 4, b3, serialize).zset, b3, b4, serialize);
  }

  /** Cardinality is no id allocator once an update can add elements: after
      two creates, a PUT of id 4 is stored at score 4 (its lookup reply is
      empty, and an empty array passes the not-found test), and the next
      create is also given id 4. */
  lemma CreateCollidesAfterUpdate(b1: Option<Resource>, b2: Option<Resource>, b3: Option<Resource>,
                                  b4: Option<Resource>, serialize: Resource -> string)
    requires IsSerializer(serialize)
    ensures var z2 := CreateRun([], [b1, b2], serialize).zset;
      var put := UpdateStep(z2, 4, b3, serialize);
      var post := CreateStep(put.zset, b4, serialize);
      && put.response.Success?
      && Entry(4, serialize(WithId(RequestObject(b3), Str(IntText(4))))) in put.zset
      && post.response.data.obj.fields["id"] == Num(4)
      && Entry(4, serialize(post.response.data.obj)) in post.zset
      && Entry(4, serialize(WithId(RequestObject(b3), Str(IntText(4))))) in post.zset
      && serialize(post.response.data.obj) != serialize(WithId(RequestObject(b3), Str(IntText(4))))
  {
    TwoCreates(b1, b2, serialize);
    CreateCollidesAfterUpdateOn(CreateRun([], [b1, b2], serialize).zset, b1, b2, b3, b4, serialize);
  }
}
