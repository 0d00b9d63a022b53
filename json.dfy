/** An abstract JSON value, the level at which the encoding of the
    representation is modelled (text, whitespace and escaping are not). */
module Json {

  /** An object keeps its members in order and may repeat a key, as JSON
      text can. Numbers appear in no encoded document and are kept abstract. */
  datatype Json =
    | JNull
    | JBool(b: bool)
    | JNumber(n: int)
    | JString(s: string)
    | JArray(items: seq<Json>)
    | JObject(members: seq<(string, Json)>)

  /** What an object holds under one key. */
  datatype Field = Absent | Found(value: Json) | Duplicate

  /** True when member `i` carries `key`. */
  predicate KeyAt(members: seq<(string, Json)>, key: string, i: int)
  {
    0 <= i < |members| && members[i].0 == key
  }

  /** The member named `key`: absent, present once with its value, or
      present more than once (which serde rejects as a duplicate field). */
  function Lookup(members: seq<(string, Json)>, key: string): (r: Field)
    ensures r.Absent? <==> forall i :: 0 <= i < |members| ==> !KeyAt(members, key, i)
    ensures r.Duplicate? <==> exists i, j :: i < j && KeyAt(members, key, i) && KeyAt(members, key, j)
    ensures r.Found? ==> forall i :: KeyAt(members, key, i) ==> members[i].1 == r.value
  {
    if members == [] then Absent
    else
      var rest := Lookup(members[1..], key);
      assert forall i :: 1 <= i < |members| ==> (KeyAt(members, key, i) <==> KeyAt(members[1..], key, i - 1));
      assert forall i :: 0 <= i < |members| - 1 ==> (KeyAt(members[1..], key, i) <==> KeyAt(members, key, i + 1));
      if members[0].0 != key then
        assert !KeyAt(members, key, 0);
        rest
      else
        assert KeyAt(members, key, 0);
        if rest.Absent? then Found(members[0].1)
        else
          var j :| KeyAt(members[1..], key, j);
          assert KeyAt(members, key, j + 1);
          Duplicate
  }

  /** A key carried by exactly one member is found with that member's value. */
  lemma LookupUnique(members: seq<(string, Json)>, key: string, k: nat)
    requires k < |members| && members[k].0 == key
    requires forall i :: 0 <= i < |members| && i != k ==> members[i].0 != key
    ensures Lookup(members, key) == Found(members[k].1)
  {
    assert KeyAt(members, key, k);
  }

  /** Inserting a member under another key, at any position, leaves every
      lookup as it was. */
  lemma LookupIgnoresInserted(members: seq<(string, Json)>, at: nat, key: string, other: string, v: Json)
    requires at <= |members| && other != key
    ensures Lookup(members[..at] + [(other, v)] + members[at..], key) == Lookup(members, key)
  {
    var n := members[..at] + [(other, v)] + members[at..];
    assert |n| == |members| + 1;
    assert forall k :: 0 <= k < at ==> n[k] == members[k];
    assert forall k :: at < k < |n| ==> n[k] == members[k - 1];
    assert !KeyAt(n, key, at);
    // Member k of `members` sits at k in `n` before the insertion point and at k + 1 after it.
    assert forall k :: 0 <= k < |members| ==>
      (KeyAt(members, key, k) <==> KeyAt(n, key, if k < at then k else k + 1));
    assert forall k :: 0 <= k < |n| && k != at ==>
      (KeyAt(n, key, k) <==> KeyAt(members, key, if k < at then k else k - 1));
    var r, s := Lookup(n, key), Lookup(members, key);
    if !s.Absent? {
      var k :| KeyAt(members, key, k);
      assert KeyAt(n, key, if k < at then k else k + 1);
    }
    if !r.Absent? {
      var k :| KeyAt(n, key, k);
      assert KeyAt(members, key, if k < at then k else k - 1);
    }
    if s.Duplicate? {
      var a, b :| a < b && KeyAt(members, key, a) && KeyAt(members, key, b);
      assert KeyAt(n, key, if a < at then a else a + 1) && KeyAt(n, key, if b < at then b else b + 1);
    }
    if r.Duplicate? {
      var a, b :| a < b && KeyAt(n, key, a) && KeyAt(n, key, b);
      assert KeyAt(members, key, if a < at then a else a - 1) && KeyAt(members, key, if b < at then b else b - 1);
    }
    if s.Found? {
      var k :| KeyAt(members, key, k);
      assert KeyAt(n, key, if k < at then k else k + 1);
    }
  }
}
