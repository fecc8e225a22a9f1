/** The five collection route handlers of copacabana.js, each as the effect
    it has on the sorted set at its collection key: the new set, the events
    it emits on the socket channel, and the HTTP response. The Store class
    (module CollectionStore) performs the same steps on its state and is
    proved equal to these functions; the lemmas here say what the steps
    mean.

    Besides the handlers as written, this module holds corrected variants
    of the lookups and of delete, with the properties the code evidently
    intends, next to lemmas that exhibit where the code as written departs
    from them. */
module Handlers {

  import opened Wrappers
  import opened SortedSet
  import opened Resources

  datatype Verb = POST | PUT | DELETE

  /** What a response carries under `success.data` and an event under
      `data`: a raw ZRANGE reply (member strings, not parsed back) or an
      object. */
  datatype Data = Items(items: seq<string>) | Object(obj: Resource)

  /** `{ method, data }`, emitted on the configured event name. */
  datatype Event = Event(verb: Verb, data: Data)

  datatype Response =
    | Success(status: int, data: Data)  // res.send(status, { success: { data } })
    | NotFound                          // res.send(404, { code: 'Resource not found' })
    | StoreError                        // next(err)
    | ReferenceError                    // an exception thrown out of the handler

  /** The outcome of one request on the set at its key. */
  datatype Step = Step(zset: ZSet, emitted: seq<Event>, response: Response)

  /** A reply as the JavaScript callback sees it. ZRANGE always replies with
      an array; an array is truthy even when empty. */
  datatype JsReply = JsNull | JsArray(items: seq<string>)

  /** `!result`. */
  predicate Falsy(r: JsReply)
    ensures r.JsArray? ==> !Falsy(r)
  {
    r.JsNull?
  }

  /** `req.body || {}`. */
  function RequestObject(body: Option<Resource>): (r: Resource)
    ensures body.Some? ==> r == body.value
    ensures body.None? ==> r.fields == map[]
  {
    if body.Some? then body.value else Resource(map[])
  }

  /** `storage.zrange(key, req.params.id - 1, req.params.id - 1)`: the
      element at rank id - 1, counted from the end when id - 1 is negative,
      and an empty array when there is none. The reply is never falsy. */
  function RankLookup(z: ZSet, id: int): (r: JsReply)
    ensures r.JsArray? && !Falsy(r)
    ensures r.items ==
      if 1 <= id <= |z| then [z[id - 1].member]
      else if -|z| < id <= 0 then [z[|z| + id - 1].member]
      else []
  {
    JsArray(ZRange(z, id - 1, id - 1))
  }

  /** Every member of the set is the text of an object. */
  ghost predicate ObjectMembers(z: ZSet)
  {
    forall i :: 0 <= i < |z| ==> |z[i].member| > 0 && z[i].member[0] == '{'
  }

  // ----- The handlers as written -----

  /** GET /:namespace/:collection */
  function ListStep(z: ZSet): (st: Step)
    ensures st.zset == z && st.emitted == []
    ensures st.response == Success(200, Items(Members(z)))
  {
    Step(z, [], Success(200, Items(ZRange(z, 0, -1))))
  }

  /** POST /:namespace/:collection */
  function CreateStep(z: ZSet, body: Option<Resource>, serialize: Resource -> string): (st: Step)
    ensures st.response.Success? && st.response.status == 201 && st.response.data.Object?
    ensures st.response.data.obj == WithId(RequestObject(body), Num(|z| + 1))
    ensures st.emitted == [Event(POST, st.response.data)]
  {
    var result := ZCard(z);
    var id := result + 1;
    var resource := WithId(RequestObject(body), Num(id));
    Step(ZAdd(z, id, serialize(resource)), [Event(POST, Object(resource))], Success(201, Object(resource)))
  }

  /** PUT /:namespace/:collection/:id */
  function UpdateStep(z: ZSet, id: int, body: Option<Resource>, serialize: Resource -> string): (st: Step)
    ensures st.response == Success(200, Object(WithId(RequestObject(body), Str(IntText(id)))))
    ensures st.emitted == [Event(PUT, st.response.data)]
    ensures Entry(id, serialize(st.response.data.obj)) in st.zset
    ensures forall x :: x in z && x.member != serialize(st.response.data.obj) ==> x in st.zset
    ensures forall x :: x in st.zset <==>
      (x in z && x.member != serialize(st.response.data.obj)) || x == Entry(id, serialize(st.response.data.obj))
  {
    var result := RankLookup(z, id);
    if Falsy(result) then Step(z, [], NotFound)
    else
      var resource := WithId(RequestObject(body), Str(IntText(id)));
      Step(ZAdd(z, id, serialize(resource)), [Event(PUT, Object(resource))], Success(200, Object(resource)))
  }

  /** DELETE /:namespace/:collection/:id. The handler assigns `object.id`
      although it declares no `object`; that throws before ZREM runs. */
  function DeleteStep(z: ZSet, id: int): (st: Step)
    ensures st == Step(z, [], ReferenceError)
  {
    var result := RankLookup(z, id);
    if Falsy(result) then Step(z, [], NotFound)
    else Step(z, [], ReferenceError)
  }

  /** The delete handler as it would act if the stray assignment did not
      throw: ZREM with the path id as the member, then the DELETE event and
      a 204 carrying the lookup reply. */
  function DeleteIntendedStep(z: ZSet, id: int): (st: Step)
    ensures st.response == Success(204, Items(ZRange(z, id - 1, id - 1)))
    ensures st.emitted == [Event(DELETE, st.response.data)]
    ensures forall x :: x in st.zset <==> x in z && x.member != IntText(id)
  {
    var result := RankLookup(z, id);
    if Falsy(result) then Step(z, [], NotFound)
    else
      Step(ZRem(z, IntText(id)), [Event(DELETE, Items(result.items))], Success(204, Items(result.items)))
  }

  /** GET /:namespace/:collection/:id */
  function GetStep(z: ZSet, id: int): (st: Step)
    ensures st.zset == z && st.emitted == []
    ensures st.response == Success(200, Items(ZRange(z, id - 1, id - 1)))
  {
    var result := RankLookup(z, id);
    if Falsy(result) then Step(z, [], NotFound)
    else Step(z, [], Success(200, Items(result.items)))
  }

  // ----- What the handlers as written do -----

  /** List answers every member in rank order, which is ascending score, and
      an empty array for a key that was never written. */
  lemma ListInScoreOrder(z: ZSet)
    requires Valid(z)
    ensures var items := ListStep(z).response.data.items;
      && |items| == |z|
      && (forall i :: 0 <= i < |z| ==> items[i] == z[i].member)
      && (forall i, j :: 0 <= i < j < |z| ==> z[i].score <= z[j].score)
    ensures ListStep([]).response == Success(200, Items([]))
  {
  }

  /** Create takes the id from the cardinality before the insert, stores the
      serialised object at score id, and returns and emits that object. The
      set grows by one when the text is new. */
  lemma CreateSpec(z: ZSet, body: Option<Resource>, serialize: Resource -> string)
    requires Valid(z) && ObjectMembers(z) && IsSerializer(serialize)
    ensures var st := CreateStep(z, body, serialize);
      var resource := WithId(RequestObject(body), Num(|z| + 1));
      && st.response == Success(201, Object(resource))
      && st.emitted == [Event(POST, Object(resource))]
      && Valid(st.zset) && ObjectMembers(st.zset)
      && Entry(|z| + 1, serialize(resource)) in st.zset
      && (forall x :: x in z && x.member != serialize(resource) ==> x in st.zset)
      && |st.zset| == if serialize(resource) in Members(z) then |z| else |z| + 1
  {
    var resource := WithId(RequestObject(body), Num(|z| + 1));
    ZAddSpec(z, |z| + 1, serialize(resource));
    ZAddObjectMembers(z, |z| + 1, serialize(resource));
  }

  lemma ZAddObjectMembers(z: ZSet, score: int, m: string)
    requires ObjectMembers(z)
    requires |m| > 0 && m[0] == '{'
    ensures ObjectMembers(ZAdd(z, score, m))
  {
    var r := ZAdd(z, score, m);
    forall i | 0 <= i < |r| ensures |r[i].member| > 0 && r[i].member[0] == '{' {
      assert r[i] in r;
      if r[i] != Entry(score, m) {
        var k :| 0 <= k < |z| && z[k] == r[i];
      }
    }
  }

  lemma ZRemObjectMembers(z: ZSet, m: string)
    requires ObjectMembers(z)
    ensures ObjectMembers(ZRem(z, m))
  {
    var r := ZRem(z, m);
    forall i | 0 <= i < |r| ensures |r[i].member| > 0 && r[i].member[0] == '{' {
      assert r[i] in r;
      var k :| 0 <= k < |z| && z[k] == r[i];
    }
  }

  /** Update forces the id field to the path id, as text, whatever the body
      says; it stores the object at score id without removing any member, so
      the set grows by one exactly when that text is new and otherwise keeps
      its size; the response and the PUT event carry the same object. */
  lemma UpdateSpec(z: ZSet, id: int, body: Option<Resource>, serialize: Resource -> string)
    requires Valid(z) && ObjectMembers(z) && IsSerializer(serialize)
    ensures var st := UpdateStep(z, id, body, serialize);
      var resource := WithId(RequestObject(body), Str(IntText(id)));
      && st.response == Success(200, Object(resource))
      && st.emitted == [Event(PUT, Object(resource))]
      && Valid(st.zset) && ObjectMembers(st.zset)
      && Entry(id, serialize(resource)) in st.zset
      && (forall x :: x in z && x.member != serialize(resource) ==> x in st.zset)
      && |st.zset| >= |z|
      && |st.zset| == if serialize(resource) in Members(z) then |z| else |z| + 1
  {
    var resource := WithId(RequestObject(body), Str(IntText(id)));
    ZAddSpec(z, id, serialize(resource));
    ZAddObjectMembers(z, id, serialize(resource));
  }

  /** Delete as written never removes anything and emits nothing, for any
      path id: the lookup succeeds and the handler then throws. */
  lemma DeleteNeverRemoves(z: ZSet, id: int)
    ensures DeleteStep(z, id) == Step(z, [], ReferenceError)
  {
  }

  /** Even without the exception, ZREM with the path id as member matches no
      member, because members are object texts starting with '{' and the
      path id is digits: the set is unchanged, yet the 204 and the DELETE
      event go out. */
  lemma DeleteIntendedRemovesNothing(z: ZSet, id: int)
    requires ObjectMembers(z)
    ensures var st := DeleteIntendedStep(z, id);
      && st.zset == z
      && st.response == Success(204, Items(ZRange(z, id - 1, id - 1)))
      && st.emitted == [Event(DELETE, Items(ZRange(z, id - 1, id - 1)))]
  {
    var t := IntText(id);
    forall i | 0 <= i < |z| ensures Members(z)[i] != t {
      assert z[i].member[0] != t[0];
    }
  }

  /** The 404 branch of Get never runs: for an id past the end the reply is
      an empty array, which is truthy, and the client gets 200 with []. */
  lemma GetMissingAnswersEmpty(z: ZSet, id: int)
    requires id > |z|
    ensures GetStep(z, id).response == Success(200, Items([]))
  {
  }

  /** The same dead branch in Update: a PUT on an id past the end stores a
      new element at that score. */
  lemma UpdateMissingStillWrites(z: ZSet, id: int, body: Option<Resource>, serialize: Resource -> string)
    requires Valid(z) && ObjectMembers(z) && IsSerializer(serialize)
    requires id > |z|
    ensures RankLookup(z, id).items == []
    ensures var st := UpdateStep(z, id, body, serialize);
      && st.response.Success? && |st.emitted| == 1
      && Entry(id, serialize(WithId(RequestObject(body), Str(IntText(id))))) in st.zset
  {
    UpdateSpec(z, id, body, serialize);
  }

  /** id - 1 is a negative rank for id <= 0, and Redis counts negative ranks
      from the end: GET of id 0 answers the last element. */
  lemma GetZeroAnswersLast(z: ZSet)
    requires z != []
    ensures GetStep(z, 0).response == Success(200, Items([z[|z| - 1].member]))
  {
  }

  // ----- Corrected lookups and delete -----

  /** Get with the not-found test the code intends: 404 when the lookup
      returned nothing. */
  function GetCheckedStep(z: ZSet, id: int): (st: Step)
    ensures st.zset == z && st.emitted == []
  {
    var result := RankLookup(z, id);
    if result.items == [] then Step(z, [], NotFound)
    else Step(z, [], Success(200, Items(result.items)))
  }

  /** Update with that not-found test. */
  function UpdateCheckedStep(z: ZSet, id: int, body: Option<Resource>, serialize: Resource -> string): (st: Step)
    ensures st.response == NotFound ==> st.zset == z && st.emitted == []
    ensures st.response != NotFound ==> st == UpdateStep(z, id, body, serialize)
  {
    var result := RankLookup(z, id);
    if result.items == [] then Step(z, [], NotFound)
    else
      var resource := WithId(RequestObject(body), Str(IntText(id)));
      Step(ZAdd(z, id, serialize(resource)), [Event(PUT, Object(resource))], Success(200, Object(resource)))
  }

  /** Delete as intended: after a successful lookup, ZREM the member that
      the lookup found, then emit DELETE with the reply and answer 204. */
  function DeleteFixedStep(z: ZSet, id: int): (st: Step)
    ensures st.response == NotFound ==> st.zset == z && st.emitted == []
    ensures st.response != NotFound ==>
      && st.response.Success? && st.response.status == 204
      && st.emitted == [Event(DELETE, st.response.data)]
      && st.response.data.Items? && st.response.data.items != []
      && st.response.data.items[0] !in Members(st.zset)
  {
    var result := RankLookup(z, id);
    if result.items == [] then Step(z, [], NotFound)
    else
      Step(ZRem(z, result.items[0]), [Event(DELETE, Items(result.items))], Success(204, Items(result.items)))
  }

  /** Get by score, `ZRANGEBYSCORE key id id`, independent of rank. */
  function GetByScoreStep(z: ZSet, id: int): (st: Step)
    ensures st.zset == z && st.emitted == []
  {
    var result := ZRangeByScore(z, id, id);
    if result == [] then Step(z, [], NotFound)
    else Step(z, [], Success(200, Items(result)))
  }

  /** The checked Get answers 404 exactly when no element has rank id - 1,
      and otherwise the one element at that rank. */
  lemma GetCheckedNotFound(z: ZSet, id: int)
    ensures GetCheckedStep(z, id).response == NotFound <==> id > |z| || id <= -|z|
    ensures 1 <= id <= |z| ==> GetCheckedStep(z, id).response == Success(200, Items([z[id - 1].member]))
  {
    if -|z| < id <= 0 {
      assert ZRange(z, id - 1, id - 1) == [z[|z| + id - 1].member];
    }
  }

  /** The checked Update leaves the set and the event log alone on a missing
      id. */
  lemma UpdateCheckedMissing(z: ZSet, id: int, body: Option<Resource>, serialize: Resource -> string)
    requires id > |z|
    ensures UpdateCheckedStep(z, id, body, serialize) == Step(z, [], NotFound)
  {
  }

  /** The fixed delete removes exactly the element at rank id - 1, keeps the
      rest in order, and answers 404 when there is none. */
  lemma DeleteFixedSpec(z: ZSet, id: int)
    requires Valid(z) && ObjectMembers(z)
    ensures var st := DeleteFixedStep(z, id);
      && (st.response == NotFound <==> id > |z| || id <= -|z|)
      && (st.response == NotFound ==> st.zset == z && st.emitted == [])
      && Valid(st.zset) && ObjectMembers(st.zset)
    ensures 1 <= id <= |z| ==>
      var st := DeleteFixedStep(z, id);
      && st.zset == z[..id - 1] + z[id..]
      && st.response == Success(204, Items([z[id - 1].member]))
      && st.emitted == [Event(DELETE, Items([z[id - 1].member]))]
  {
    var items := RankLookup(z, id).items;
    if -|z| < id <= 0 {
      assert items == [z[|z| + id - 1].member];
    }
    if items != [] {
      ZRemValid(z, items[0]);
      ZRemObjectMembers(z, items[0]);
    }
    if 1 <= id <= |z| {
      DeleteFixedAtRank(z, id);
    }
  }

  /** The fixed delete of an id in 1..n, in terms of the set's sequence. */
  lemma DeleteFixedAtRank(z: ZSet, id: int)
    requires Valid(z) && 1 <= id <= |z|
    ensures DeleteFixedStep(z, id) ==
      Step(z[..id - 1] + z[id..], [Event(DELETE, Items([z[id - 1].member]))], Success(204, Items([z[id - 1].member])))
  {
    assert RankLookup(z, id).items == [z[id - 1].member];
    ZRemAtRank(z, id - 1);
  }

  /** The by-score Get answers 404 exactly when no element has score id, so
      an id that was never issued (0, a negative id, one past the last
      create) is not found. */
  lemma GetByScoreNotFound(z: ZSet, id: int)
    ensures GetByScoreStep(z, id).response == NotFound <==> forall x :: x in z ==> x.score != id
  {
    var r := ZRangeByScore(z, id, id);
    if r != [] {
      assert r[0] in r;
    }
    forall x | x in z && x.score == id ensures r != [] {
      var i :| 0 <= i < |z| && z[i] == x;
      assert z[i].member in r;
    }
  }

  /** A by-score lookup is unaffected by adding or moving another member at
      another score: the lookup of a resource survives the updates and
      creates of other resources. */
  lemma GetByScoreStable(z: ZSet, id: int, score: int, m: string)
    requires score != id
    requires forall x :: x in z && x.member == m ==> x.score != id
    ensures GetByScoreStep(ZAdd(z, score, m), id).response == GetByScoreStep(z, id).response
  {
    ScoreBandRem(z, m, id, id);
    ScoreBandInsert(ZRem(z, m), Entry(score, m), id, id);
    assert ScoreBand(ZAdd(z, score, m), id, id) == ScoreBand(z, id, id);
    assert ZRangeByScore(ZAdd(z, score, m), id, id) == ZRangeByScore(z, id, id);
  }

  /** ... and by removing a member stored at another score. */
  lemma GetByScoreStableRem(z: ZSet, id: int, m: string)
    requires forall x :: x in z && x.member == m ==> x.score != id
    ensures GetByScoreStep(ZRem(z, m), id).response == GetByScoreStep(z, id).response
  {
    ScoreBandRem(z, m, id, id);
    assert ZRangeByScore(ZRem(z, m), id, id) == ZRangeByScore(z, id, id);
  }

  /** Create with the id taken from a counter kept apart from the set and
      advanced once per create, instead of from the cardinality. */
  function CreateCountedStep(z: ZSet, counter: int, body: Option<Resource>, serialize: Resource -> string): (st: Step)
    ensures st.response == Success(201, Object(WithId(RequestObject(body), Num(counter + 1))))
    ensures st.emitted == [Event(POST, st.response.data)]
    ensures Entry(counter + 1, serialize(st.response.data.obj)) in st.zset
    ensures counter == |z| ==> st == CreateStep(z, body, serialize)
  {
    var id := counter + 1;
    var resource := WithId(RequestObject(body), Num(id));
    Step(ZAdd(z, id, serialize(resource)), [Event(POST, Object(resource))], Success(201, Object(resource)))
  }

  /** Every score in the set is an id the counter has already issued. */
  ghost predicate Issued(z: ZSet, counter: int)
  {
    forall x :: x in z ==> x.score <= counter
  }

  /** While every score is an issued id, the counted create stores the new
      object at a score no other element holds, keeps every other element,
      and the advanced counter covers the new set. */
  lemma CreateCountedSpec(z: ZSet, counter: int, body: Option<Resource>, serialize: Resource -> string)
    requires Valid(z) && ObjectMembers(z) && IsSerializer(serialize) && Issued(z, counter)
    ensures var st := CreateCountedStep(z, counter, body, serialize);
      var resource := WithId(RequestObject(body), Num(counter + 1));
      && st.response == Success(201, Object(resource))
      && st.emitted == [Event(POST, Object(resource))]
      && Valid(st.zset) && ObjectMembers(st.zset) && Issued(st.zset, counter + 1)
      && Entry(counter + 1, serialize(resource)) in st.zset
      && (forall x :: x in st.zset && x.score == counter + 1 ==> x.member == serialize(resource))
      && (forall x :: x in z && x.member != serialize(resource) ==> x in st.zset)
  {
    var resource := WithId(RequestObject(body), Num(counter + 1));
    ZAddSpec(z, counter + 1, serialize(resource));
    ZAddObjectMembers(z, counter + 1, serialize(resource));
  }

  /** Writing at an issued id or removing a member keeps every score issued:
      updates and deletes cannot make the counted create collide. */
  lemma IssuedPreserved(z: ZSet, counter: int, score: int, m: string)
    requires Issued(z, counter) && score <= counter
    ensures Issued(ZAdd(z, score, m), counter)
    ensures Issued(ZRem(z, m), counter)
  {
  }
}
