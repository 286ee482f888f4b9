/** The registry's output: what the server knows about a service class. */
module Metadatas {
  import opened Wrappers
  import opened KotlinReflect

  /** One parameter of an RPC function; `index` is its position in the call. */
  datatype ParameterMetadata = ParameterMetadata(name: string, paramType: KType, index: nat)

  /** An RPC function: its exposed name, the callable itself, and its parameters keyed by name.
      The parameter map is insertion-ordered, like the `LinkedHashMap` the registry builds:
      each entry's key is its `name`. Only member functions are registered, so the instance
      parameter is part of the map and the caller never supplies it. */
  datatype MethodMetadata = MethodMetadata(name: string, callable: KFunction, parameters: seq<ParameterMetadata>)

  /** Whether the class is a JSON-RPC service, and its RPC functions keyed by exposed name. */
  datatype ClassMetadata = ClassMetadata(service: bool, methods: map<string, MethodMetadata>)

  /** The parameter map's keys are distinct. */
  predicate NamesDistinct(ps: seq<ParameterMetadata>) {
    forall i, j :: 0 <= i < j < |ps| ==> ps[i].name != ps[j].name
  }

  /** `parameters[name]`: the entry stored under `name`, if any. */
  function ParameterNamed(ps: seq<ParameterMetadata>, name: string): (r: Option<ParameterMetadata>)
    ensures r.None? <==> forall i :: 0 <= i < |ps| ==> ps[i].name != name
    ensures r.Some? ==> r.value.name == name
  {
    if |ps| == 0 then None
    else if ps[0].name == name then Some(ps[0])
    else ParameterNamed(ps[1..], name)
  }

  /** The lookup returns the first entry stored under the name. */
  lemma {:induction false} ParameterNamedFirst(ps: seq<ParameterMetadata>, name: string, i: nat)
    requires i < |ps| && ps[i].name == name
    requires forall j :: 0 <= j < i ==> ps[j].name != name
    ensures ParameterNamed(ps, name) == Some(ps[i])
    decreases i
  {
    if i > 0 {
      assert ps[0].name != name;
      ParameterNamedFirst(ps[1..], name, i - 1);
    }
  }

  /** `parameters[p.name] = p` on an insertion-ordered map: an existing key keeps its place and
      takes the new value, a new key goes last. */
  function Put(ps: seq<ParameterMetadata>, p: ParameterMetadata): (r: seq<ParameterMetadata>)
    ensures (forall i :: 0 <= i < |ps| ==> ps[i].name != p.name) ==> r == ps + [p]
  {
    if |ps| == 0 then [p]
    else if ps[0].name == p.name then [p] + ps[1..]
    else [ps[0]] + Put(ps[1..], p)
  }

  /** A put adds at most one entry and removes none. */
  lemma {:induction false} PutSize(ps: seq<ParameterMetadata>, p: ParameterMetadata)
    ensures |ps| <= |Put(ps, p)| <= |ps| + 1
  {
    if |ps| > 0 && ps[0].name != p.name {
      PutSize(ps[1..], p);
    }
  }

  /** After a put, the key holds the new entry. */
  lemma {:induction false} PutFinds(ps: seq<ParameterMetadata>, p: ParameterMetadata)
    ensures ParameterNamed(Put(ps, p), p.name) == Some(p)
  {
    if |ps| > 0 && ps[0].name != p.name {
      PutFinds(ps[1..], p);
      assert Put(ps, p)[1..] == Put(ps[1..], p);
    }
  }

  /** A put leaves every other key as it was. */
  lemma {:induction false} PutKeeps(ps: seq<ParameterMetadata>, p: ParameterMetadata, n: string)
    requires n != p.name
    ensures ParameterNamed(Put(ps, p), n) == ParameterNamed(ps, n)
  {
    if |ps| > 0 {
      if ps[0].name != p.name {
        PutKeeps(ps[1..], p, n);
        assert Put(ps, p)[1..] == Put(ps[1..], p);
      } else {
        assert Put(ps, p)[1..] == ps[1..];
      }
    }
  }

  /** Dropping the first entry of a map with distinct keys leaves distinct keys, none of them
      the first entry's. */
  lemma TailDistinct(ps: seq<ParameterMetadata>)
    requires |ps| > 0 && NamesDistinct(ps)
    ensures NamesDistinct(ps[1..]) && ParameterNamed(ps[1..], ps[0].name).None?
  {
    var rest := ps[1..];
    forall j | 0 <= j < |rest| ensures rest[j].name != ps[0].name {
      assert rest[j] == ps[j + 1];
    }
    forall i, j | 0 <= i < j < |rest| ensures rest[i].name != rest[j].name {
      assert rest[i] == ps[i + 1] && rest[j] == ps[j + 1];
    }
  }

  /** An entry whose key is absent from a map with distinct keys can go in front. */
  lemma ConsDistinct(x: ParameterMetadata, t: seq<ParameterMetadata>)
    requires NamesDistinct(t) && ParameterNamed(t, x.name).None?
    ensures NamesDistinct([x] + t)
  {
    var r := [x] + t;
    forall i, j | 0 <= i < j < |r| ensures r[i].name != r[j].name {
      assert r[j] == t[j - 1];
      if i > 0 {
        assert r[i] == t[i - 1];
      }
    }
  }

  /** A put keeps the keys distinct. */
  lemma {:induction false} PutDistinct(ps: seq<ParameterMetadata>, p: ParameterMetadata)
    requires NamesDistinct(ps)
    ensures NamesDistinct(Put(ps, p))
  {
    if |ps| > 0 {
      var rest := ps[1..];
      TailDistinct(ps);
      if ps[0].name != p.name {
        PutDistinct(rest, p);
        PutKeeps(rest, p, ps[0].name);
        assert Put(ps, p) == [ps[0]] + Put(rest, p);
        ConsDistinct(ps[0], Put(rest, p));
      } else {
        assert Put(ps, p) == [p] + rest;
        ConsDistinct(p, rest);
      }
    }
  }

  /** After a put, the key holds the new entry, every other key is as before, and keys stay
      distinct. */
  lemma PutLookup(ps: seq<ParameterMetadata>, p: ParameterMetadata)
    ensures NamesDistinct(ps) ==> NamesDistinct(Put(ps, p))
    ensures ParameterNamed(Put(ps, p), p.name) == Some(p)
    ensures forall n :: n != p.name ==> ParameterNamed(Put(ps, p), n) == ParameterNamed(ps, n)
  {
    if NamesDistinct(ps) {
      PutDistinct(ps, p);
    }
    PutFinds(ps, p);
    forall n | n != p.name ensures ParameterNamed(Put(ps, p), n) == ParameterNamed(ps, n) {
      PutKeeps(ps, p, n);
    }
  }
}
