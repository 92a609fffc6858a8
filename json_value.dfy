/**
 * A value produced by `JSON.parse`, and the JavaScript property read
 * `value.key` on it. Numbers are integers here (see README).
 */
module JsonValue {
  import opened Wrappers

  datatype Json =
    | JNull
    | JBool(b: bool)
    | JNum(n: int)
    | JStr(s: string)
    | JArr(items: seq<Json>)
    | JObj(members: seq<(string, Json)>)

  /** The position of the last member named `key`, or -1 when there is none. */
  function LastIndex(members: seq<(string, Json)>, key: string): (i: int)
    ensures -1 <= i < |members|
    ensures i >= 0 ==> members[i].0 == key
    ensures forall m :: i < m < |members| ==> members[m].0 != key
  {
    if members == [] then -1
    else if members[|members| - 1].0 == key then |members| - 1
    else
      var init := members[..|members| - 1];
      assert forall m :: 0 <= m < |init| ==> init[m] == members[m];
      LastIndex(init, key)
  }

  /** The value bound to `key` in a member list; when a key is repeated, `JSON.parse` keeps the last one. */
  function LastBinding(members: seq<(string, Json)>, key: string): (r: Option<Json>)
    ensures r.None? <==> forall k :: 0 <= k < |members| ==> members[k].0 != key
    ensures r.Some? ==> exists k :: 0 <= k < |members| && members[k] == (key, r.value)
                           && forall m :: k < m < |members| ==> members[m].0 != key
  {
    var i := LastIndex(members, key);
    if i < 0 then None
    else
      assert members[i] == (key, members[i].1);
      Some(members[i].1)
  }

  /** `value.key`: `undefined` (None) for a missing key and for anything that is not an object. */
  function Member(value: Json, key: string): Option<Json> {
    if value.JObj? then LastBinding(value.members, key) else None
  }

  /** An object literal whose keys are all different reads back each of its bindings. */
  lemma {:induction false} DistinctKeysReadBack(members: seq<(string, Json)>, k: nat)
    requires k < |members|
    requires forall i, j :: 0 <= i < j < |members| ==> members[i].0 != members[j].0
    ensures Member(JObj(members), members[k].0) == Some(members[k].1)
  {
    var r := LastBinding(members, members[k].0);
    assert r.Some?;
    var i :| 0 <= i < |members| && members[i] == (members[k].0, r.value)
             && forall m :: i < m < |members| ==> members[m].0 != members[k].0;
    assert i == k;
  }
}
