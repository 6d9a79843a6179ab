/** Looking up fields of a parsed object. */
module JsonRecord {
  import opened Wrappers
  import opened CanonicalJson

  function Find(members: seq<Field<Json>>, key: string): Option<Json> {
    if members == [] then None
    else if members[0].key == key then Some(members[0].value)
    else Find(members[1..], key)
  }

  function Get(v: Json, key: string): Option<Json> { if v.JObject? then Find(v.members, key) else None }

  function GetText(v: Json, key: string): Option<string> {
    match Get(v, key)
    case Some(JString(text)) => Some(text)
    case _ => None
  }

  /** With distinct keys, a lookup finds each member. */
  lemma {:induction false} FindAt(members: seq<Field<Json>>, i: nat)
    requires i < |members| && forall j, k | 0 <= j < k < |members| :: members[j].key != members[k].key
    ensures Find(members, members[i].key) == Some(members[i].value)
  {
    if i > 0 { FindAt(members[1..], i - 1); }
  }
}
