/** Request bodies, their `id` field, their serialisation into sorted-set
    members, and the text of a path id. */
module Resources {

  /** A JSON value. Numbers are integers here. */
  datatype Value =
    | Null
    | Bool(b: bool)
    | Num(n: int)
    | Str(s: string)
    | Arr(items: seq<Value>)
    | Obj(fields: map<string, Value>)

  /** A resource: the JSON object of a request body. */
  datatype Resource = Resource(fields: map<string, Value>)

  /** `object.id = v`: sets the id field, overwriting any value the caller
      sent and keeping every other field. */
  function WithId(o: Resource, v: Value): (r: Resource)
    ensures r.fields.Keys == o.fields.Keys + {"id"}
    ensures r.fields["id"] == v
    ensures forall k :: k in o.fields && k != "id" ==> r.fields[k] == o.fields[k]
  {
    Resource(o.fields["id" := v])
  }

  /** The fields after `object.id = v` are the same whether or not the body
      carried an id of its own. (Property order, which JSON text keeps, is
      not part of a Resource.) */
  lemma WithIdOverrides(o: Resource, v: Value)
    ensures WithId(o, v) == WithId(Resource(o.fields - {"id"}), v)
  {
    assert WithId(o, v).fields == WithId(Resource(o.fields - {"id"}), v).fields;
  }

  /** What is asked of `JSON.stringify` on objects: distinct objects give
      distinct text, and the text of an object starts with '{'. */
  ghost predicate IsSerializer(serialize: Resource -> string)
  {
    && (forall a, b :: serialize(a) == serialize(b) ==> a == b)
    && (forall a :: |serialize(a)| > 0 && serialize(a)[0] == '{')
  }

  // ----- The text of a path id -----

  function Digit(d: nat): (c: char)
    requires d < 10
    ensures '0' <= c <= '9'
  {
    "0123456789"[d]
  }

  function DigitValue(c: char): (d: nat)
    requires '0' <= c <= '9'
    ensures d < 10 && Digit(d) == c
  {
    (c as int - '0' as int) as nat
  }

  /** The decimal text of a natural number, without leading zeros. */
  function NatText(n: nat): (s: string)
    ensures |s| > 0
    ensures forall i :: 0 <= i < |s| ==> '0' <= s[i] <= '9'
    decreases n
  {
    if n < 10 then [Digit(n)] else NatText(n / 10) + [Digit(n % 10)]
  }

  /** The canonical decimal text of an integer: the path id as the router
      hands it to the handler, in `req.params.id`. */
  function IntText(n: int): (s: string)
    ensures |s| > 0 && (s[0] == '-' || '0' <= s[0] <= '9')
  {
    if n < 0 then "-" + NatText(-n) else NatText(n)
  }

  function ParseNat(s: string): (n: nat)
    requires forall i :: 0 <= i < |s| ==> '0' <= s[i] <= '9'
  {
    if s == [] then 0 else ParseNat(s[..|s| - 1]) * 10 + DigitValue(s[|s| - 1])
  }

  /** JavaScript's numeric coercion of decimal text, as in `req.params.id - 1`. */
  function ParseInt(s: string): (n: int)
    requires |s| > 0
    requires s[0] == '-' ==> (|s| > 1 && forall i :: 1 <= i < |s| ==> '0' <= s[i] <= '9')
    requires s[0] != '-' ==> forall i :: 0 <= i < |s| ==> '0' <= s[i] <= '9'
    ensures s[0] != '-' ==> n >= 0
    ensures s[0] == '-' ==> n <= 0
  {
    if s[0] == '-' then -(ParseNat(s[1..]) as int) else ParseNat(s)
  }

  lemma {:induction false} NatTextRoundTrip(n: nat)
    ensures ParseNat(NatText(n)) == n
    decreases n
  {
    if n >= 10 {
      NatTextRoundTrip(n / 10);
      var s := NatText(n);
      assert s[..|s| - 1] == NatText(n / 10);
      assert DigitValue(s[|s| - 1]) == n % 10;
    }
  }

  /** The coercion of the path text gives back the path id, so
      `req.params.id - 1` is id - 1. */
  lemma IntTextRoundTrip(n: int)
    ensures ParseInt(IntText(n)) == n
  {
    if n < 0 {
      NatTextRoundTrip(-n);
      assert IntText(n)[1..] == NatText(-n);
    } else {
      NatTextRoundTrip(n);
    }
  }
}
