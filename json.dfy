/** The JSON tree the server works on (Jackson's `JsonNode`). Numbers are integers only. */
module Json {
  import opened Wrappers

  datatype Json =
    | JNull
    | JBool(b: bool)
    | JNumber(n: int)
    | JString(s: string)
    | JArray(items: seq<Json>)
      /** Fields in document order; a key written twice keeps the value written last. */
    | JObject(fields: seq<(string, Json)>)

  /** `JsonNode.get(name)`: the named field of an object node; any other node has no fields. */
  function Get(node: Json, name: string): (r: Option<Json>)
    ensures r.Some? <==> node.JObject? && exists i :: 0 <= i < |node.fields| && node.fields[i].0 == name
  {
    if node.JObject? then FieldValue(node.fields, name) else None
  }

  /** The value of the last field called `name`, as Jackson's tree keeps it. */
  function FieldValue(fields: seq<(string, Json)>, name: string): (r: Option<Json>)
    ensures r.None? <==> forall i :: 0 <= i < |fields| ==> fields[i].0 != name
    ensures r.Some? ==> exists i :: 0 <= i < |fields| && fields[i] == (name, r.value)
                                  && forall j :: i < j < |fields| ==> fields[j].0 != name
  {
    if |fields| == 0 then None
    else if fields[|fields| - 1].0 == name then Some(fields[|fields| - 1].1)
    else
      var r := FieldValue(fields[..|fields| - 1], name);
      assert forall i :: 0 <= i < |fields| - 1 ==> fields[..|fields| - 1][i] == fields[i];
      r
  }

  predicate KeysDistinct(fields: seq<(string, Json)>) {
    forall i, j :: 0 <= i < j < |fields| ==> fields[i].0 != fields[j].0
  }

  /** With distinct keys, looking a key up finds exactly the pair written in the object. */
  lemma FieldValueOfDistinct(fields: seq<(string, Json)>, name: string, v: Json)
    requires KeysDistinct(fields)
    ensures FieldValue(fields, name) == Some(v) <==> (name, v) in fields
  {
    var r := FieldValue(fields, name);
    if (name, v) in fields {
      var k :| 0 <= k < |fields| && fields[k] == (name, v);
      assert r.Some?;
      var i :| 0 <= i < |fields| && fields[i] == (name, r.value)
               && forall j :: i < j < |fields| ==> fields[j].0 != name;
      assert i == k;
    }
  }

  /** The order in which an object's (distinct) keys are written does not change any lookup. */
  lemma KeyOrderIrrelevant(fs: seq<(string, Json)>, gs: seq<(string, Json)>)
    requires KeysDistinct(fs) && KeysDistinct(gs) && multiset(fs) == multiset(gs)
    ensures forall name :: Get(JObject(fs), name) == Get(JObject(gs), name)
  {
    forall name ensures FieldValue(fs, name) == FieldValue(gs, name) {
      var a, b := FieldValue(fs, name), FieldValue(gs, name);
      if a.Some? {
        FieldValueOfDistinct(fs, name, a.value);
        assert (name, a.value) in multiset(gs);
        FieldValueOfDistinct(gs, name, a.value);
      } else if b.Some? {
        FieldValueOfDistinct(gs, name, b.value);
        assert (name, b.value) in multiset(fs);
        FieldValueOfDistinct(fs, name, b.value);
      }
    }
  }
}
