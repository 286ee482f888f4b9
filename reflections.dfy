/** The service registry: turns a class description into its `ClassMetadata`. */
module Reflections {
  import opened Wrappers
  import opened Strings
  import opened Annotations
  import opened KotlinReflect
  import opened Metadatas

  /** The first annotation of class `clazz`, if any (`firstOrNull`). */
  function GetAnnotation(annotations: seq<Annotation>, clazz: AnnotationClass): (r: Option<Annotation>)
    ensures r.None? <==> forall i :: 0 <= i < |annotations| ==> ClassOf(annotations[i]) != clazz
    ensures r.Some? ==> exists i :: 0 <= i < |annotations| && annotations[i] == r.value && ClassOf(r.value) == clazz
                                  && forall j :: 0 <= j < i ==> ClassOf(annotations[j]) != clazz
  {
    if |annotations| == 0 then None
    else if ClassOf(annotations[0]) == clazz then Some(annotations[0])
    else
      var r := GetAnnotation(annotations[1..], clazz);
      assert r.Some? ==> exists i :: 1 <= i < |annotations| && annotations[i] == r.value && ClassOf(r.value) == clazz
                                   && forall j :: 0 <= j < i ==> ClassOf(annotations[j]) != clazz by {
        if r.Some? {
          var i :| 0 <= i < |annotations[1..]| && annotations[1..][i] == r.value && ClassOf(r.value) == clazz
                   && forall j :: 0 <= j < i ==> ClassOf(annotations[1..][j]) != clazz;
          assert forall j :: 1 <= j < i + 1 ==> ClassOf(annotations[j]) != clazz by {
            forall j | 1 <= j < i + 1 ensures ClassOf(annotations[j]) != clazz {
              assert annotations[j] == annotations[1..][j - 1];
            }
          }
        }
      }
      r
  }

  /** The key a parameter is stored under: its name, or `toString()` when it has none (the
      instance parameter). */
  function ParameterName(p: KParameter): string {
    p.name.GetOr(p.display)
  }

  predicate ParameterNamesDistinct(ps: seq<KParameter>) {
    forall i, j :: 0 <= i < j < |ps| ==> ParameterName(ps[i]) != ParameterName(ps[j])
  }

  /** The parameter map `getFunctionParameters` builds: every parameter in declaration order,
      put under its key with its position as index. */
  function ParametersOf(ps: seq<KParameter>): (r: seq<ParameterMetadata>)
    ensures |r| <= |ps| && (|ps| > 0 ==> |r| > 0)
    decreases |ps|
  {
    if |ps| == 0 then []
    else
      var last := |ps| - 1;
      var entry := ParameterMetadata(ParameterName(ps[last]), ps[last].paramType, last);
      PutSize(ParametersOf(ps[..last]), entry);
      Put(ParametersOf(ps[..last]), entry)
  }

  /** `getFunctionParameters`: fills a fresh map parameter by parameter. */
  method GetFunctionParameters(f: KFunction) returns (parametersMetadata: seq<ParameterMetadata>)
    ensures parametersMetadata == ParametersOf(f.parameters)
  {
    var ps := f.parameters;
    parametersMetadata := [];
    for i := 0 to |ps|
      invariant parametersMetadata == ParametersOf(ps[..i])
    {
      var rpcParameterName := ParameterName(ps[i]);
      assert ps[..i + 1][..i] == ps[..i];
      parametersMetadata := Put(parametersMetadata, ParameterMetadata(rpcParameterName, ps[i].paramType, i));
    }
    assert ps[..|ps|] == ps;
  }

  /** The built map has distinct keys, and a parameter's key finds the entry of the last
      parameter carrying that key. */
  lemma ParametersOfKeys(ps: seq<KParameter>)
    ensures NamesDistinct(ParametersOf(ps))
    ensures forall i :: 0 <= i < |ps| && (forall j :: i < j < |ps| ==> ParameterName(ps[j]) != ParameterName(ps[i]))
              ==> ParameterNamed(ParametersOf(ps), ParameterName(ps[i])) == Some(ParameterMetadata(ParameterName(ps[i]), ps[i].paramType, i))
    ensures forall n :: ParameterNamed(ParametersOf(ps), n).None? <==> forall i :: 0 <= i < |ps| ==> ParameterName(ps[i]) != n
  {
    ParametersOfKeysDistinct(ps);
    forall i | 0 <= i < |ps| && (forall j :: i < j < |ps| ==> ParameterName(ps[j]) != ParameterName(ps[i]))
      ensures ParameterNamed(ParametersOf(ps), ParameterName(ps[i])) == Some(ParameterMetadata(ParameterName(ps[i]), ps[i].paramType, i))
    {
      ParametersOfFinds(ps, i);
    }
    forall n ensures ParameterNamed(ParametersOf(ps), n).None? <==> forall i :: 0 <= i < |ps| ==> ParameterName(ps[i]) != n {
      ParametersOfMisses(ps, n);
    }
  }

  lemma {:induction false} ParametersOfKeysDistinct(ps: seq<KParameter>)
    ensures NamesDistinct(ParametersOf(ps))
    decreases |ps|
  {
    if |ps| > 0 {
      var last := |ps| - 1;
      ParametersOfKeysDistinct(ps[..last]);
      PutLookup(ParametersOf(ps[..last]), ParameterMetadata(ParameterName(ps[last]), ps[last].paramType, last));
    }
  }

  lemma {:induction false} ParametersOfFinds(ps: seq<KParameter>, i: nat)
    requires i < |ps| && forall j :: i < j < |ps| ==> ParameterName(ps[j]) != ParameterName(ps[i])
    ensures ParameterNamed(ParametersOf(ps), ParameterName(ps[i])) == Some(ParameterMetadata(ParameterName(ps[i]), ps[i].paramType, i))
    decreases |ps|
  {
    var last := |ps| - 1;
    var init := ps[..last];
    var entry := ParameterMetadata(ParameterName(ps[last]), ps[last].paramType, last);
    var acc := ParametersOf(init);
    assert ParametersOf(ps) == Put(acc, entry);
    PutLookup(acc, entry);
    if i < last {
      assert init[i] == ps[i];
      assert forall j :: i < j < last ==> ParameterName(init[j]) != ParameterName(init[i]) by {
        forall j | i < j < last ensures ParameterName(init[j]) != ParameterName(init[i]) {
          assert init[j] == ps[j];
        }
      }
      ParametersOfFinds(init, i);
      assert entry.name != ParameterName(ps[i]);
    }
  }

  lemma {:induction false} ParametersOfMisses(ps: seq<KParameter>, n: string)
    ensures ParameterNamed(ParametersOf(ps), n).None? <==> forall i :: 0 <= i < |ps| ==> ParameterName(ps[i]) != n
    decreases |ps|
  {
    if |ps| > 0 {
      var last := |ps| - 1;
      var init := ps[..last];
      var entry := ParameterMetadata(ParameterName(ps[last]), ps[last].paramType, last);
      assert ParametersOf(ps) == Put(ParametersOf(init), entry);
      PutLookup(ParametersOf(init), entry);
      if n == entry.name {
        assert ParameterName(ps[last]) == n;
      } else {
        ParametersOfMisses(init, n);
        var q := ParameterNamed(ParametersOf(init), n);
        assert ParameterNamed(ParametersOf(ps), n) == q;
        if q.None? {
          forall i | 0 <= i < |ps| ensures ParameterName(ps[i]) != n {
            if i < last {
              assert init[i] == ps[i];
            }
          }
        } else {
          var i :| 0 <= i < last && ParameterName(init[i]) == n;
          assert ps[i] == init[i];
        }
      }
    }
  }

  /** With distinct parameter names (as Kotlin guarantees) the map holds exactly one entry per
      parameter, in declaration order, each carrying its declaration index. */
  lemma {:induction false} ParametersOfDistinct(ps: seq<KParameter>)
    requires ParameterNamesDistinct(ps)
    ensures |ParametersOf(ps)| == |ps|
    ensures forall i :: 0 <= i < |ps| ==>
              ParametersOf(ps)[i] == ParameterMetadata(ParameterName(ps[i]), ps[i].paramType, i)
    decreases |ps|
  {
    if |ps| > 0 {
      var last := |ps| - 1;
      var init := ps[..last];
      var acc := ParametersOf(init);
      var entry := ParameterMetadata(ParameterName(ps[last]), ps[last].paramType, last);
      assert ParameterNamesDistinct(init) by {
        assert forall i :: 0 <= i < last ==> init[i] == ps[i];
      }
      ParametersOfDistinct(init);
      forall i | 0 <= i < |acc| ensures acc[i].name != entry.name {
        assert init[i] == ps[i];
        assert acc[i].name == ParameterName(ps[i]);
      }
      assert ParametersOf(ps) == acc + [entry];
      forall i | 0 <= i < |ps|
        ensures ParametersOf(ps)[i] == ParameterMetadata(ParameterName(ps[i]), ps[i].paramType, i)
      {
        if i < last {
          assert init[i] == ps[i];
          assert (acc + [entry])[i] == acc[i];
        }
      }
    }
  }

  /** The name a function is exposed under when it is registered: public and marked with
      `@JsonRpcMethod`, under the annotation's alias when that is not blank, else its own name. */
  function Exposure(f: KFunction): (r: Option<string>)
    ensures r.Some? ==> f.visibility == Public
    ensures r.Some? <==> f.visibility == Public && exists i :: 0 <= i < |f.annotations| && f.annotations[i].JsonRpcMethod?
  {
    if f.visibility != Public then None
    else match GetAnnotation(f.annotations, MethodClass)
      case None => None
      case Some(a) => Some(if !IsBlank(a.value) then a.value else f.name)
  }

  /** A public function is registered under the alias of its first `@JsonRpcMethod`, or under
      its own name when that alias is blank. */
  lemma ExposureAlias(f: KFunction, i: nat, alias: string)
    requires f.visibility == Public
    requires i < |f.annotations| && f.annotations[i] == JsonRpcMethod(alias)
    requires forall j :: 0 <= j < i ==> !f.annotations[j].JsonRpcMethod?
    ensures Exposure(f) == Some(if IsBlank(alias) then f.name else alias)
  {
    var anns := f.annotations;
    assert ClassOf(anns[i]) == MethodClass;
    var found := GetAnnotation(anns, MethodClass);
    var k :| 0 <= k < |anns| && anns[k] == found.value && ClassOf(found.value) == MethodClass
             && forall j :: 0 <= j < k ==> ClassOf(anns[j]) != MethodClass;
    assert anns[k].JsonRpcMethod?;
    assert k == i;
  }

  function MetadataOf(f: KFunction, name: string): MethodMetadata {
    MethodMetadata(name, f, ParametersOf(f.parameters))
  }

  /** The method map `getClassMetadata` builds from the member functions, in order; a later
      function exposed under the same name replaces an earlier one. */
  function MethodsOf(fs: seq<KFunction>): (r: map<string, MethodMetadata>)
    ensures |r| <= |fs|
    decreases |fs|
  {
    if |fs| == 0 then map[]
    else
      var last := |fs| - 1;
      var acc := MethodsOf(fs[..last]);
      match Exposure(fs[last])
      case None => acc
      case Some(name) => acc[name := MetadataOf(fs[last], name)]
  }

  /** Every registered function's name is a key of the method map. */
  lemma {:induction false} MethodsOfHas(fs: seq<KFunction>, i: nat)
    requires i < |fs| && Exposure(fs[i]).Some?
    ensures Exposure(fs[i]).value in MethodsOf(fs)
    decreases |fs|
  {
    var last := |fs| - 1;
    if i < last {
      var init := fs[..last];
      assert init[i] == fs[i];
      MethodsOfHas(init, i);
    }
  }

  /** The entry under `k` describes the last function exposed as `k`. */
  lemma {:induction false} MethodsOfLatest(fs: seq<KFunction>, k: string)
    requires k in MethodsOf(fs)
    ensures exists i :: 0 <= i < |fs| && Exposure(fs[i]) == Some(k) && MethodsOf(fs)[k] == MetadataOf(fs[i], k)
                        && forall j :: i < j < |fs| ==> Exposure(fs[j]) != Some(k)
    decreases |fs|
  {
    var last := |fs| - 1;
    var init := fs[..last];
    var i: nat;
    if Exposure(fs[last]) == Some(k) {
      i := last;
      assert MethodsOf(fs)[k] == MetadataOf(fs[last], k) by {
        assert MethodsOf(fs) == MethodsOf(init)[k := MetadataOf(fs[last], k)];
      }
    } else {
      assert MethodsOf(fs)[k] == MethodsOf(init)[k] && k in MethodsOf(init) by {
        match Exposure(fs[last])
        case None =>
          assert MethodsOf(fs) == MethodsOf(init);
        case Some(name) =>
          assert MethodsOf(fs) == MethodsOf(init)[name := MetadataOf(fs[last], name)];
      }
      MethodsOfLatest(init, k);
      i :| 0 <= i < last && Exposure(init[i]) == Some(k) && MethodsOf(init)[k] == MetadataOf(init[i], k)
           && forall j :: i < j < last ==> Exposure(init[j]) != Some(k);
      assert init[i] == fs[i];
      forall j | i < j < |fs| ensures Exposure(fs[j]) != Some(k) {
        if j < last {
          assert Exposure(init[j]) != Some(k);
          assert init[j] == fs[j];
        } else {
          assert j == last;
        }
      }
    }
    assert 0 <= i < |fs| && Exposure(fs[i]) == Some(k) && MethodsOf(fs)[k] == MetadataOf(fs[i], k)
           && forall j :: i < j < |fs| ==> Exposure(fs[j]) != Some(k);
  }

  /** A name is a key of the method map exactly when some function is registered under it,
      and the entry under it carries that name. */
  lemma MethodsOfKeys(fs: seq<KFunction>)
    ensures forall k :: k in MethodsOf(fs) <==> exists i :: 0 <= i < |fs| && Exposure(fs[i]) == Some(k)
    ensures forall k :: k in MethodsOf(fs) ==> MethodsOf(fs)[k].name == k
  {
    forall k | k in MethodsOf(fs)
      ensures (exists i :: 0 <= i < |fs| && Exposure(fs[i]) == Some(k)) && MethodsOf(fs)[k].name == k
    {
      MethodsOfLatest(fs, k);
    }
    forall k, i | 0 <= i < |fs| && Exposure(fs[i]) == Some(k)
      ensures k in MethodsOf(fs)
    {
      MethodsOfHas(fs, i);
    }
  }

  /** The registry's result for a class: whether it is marked `@JsonRpcService`, whatever
      functions it has, and its exposed functions. */
  function ClassMetadataOf(clazz: KClass): (md: ClassMetadata)
    ensures md.service <==> JsonRpcService in clazz.annotations
    ensures forall k :: k in md.methods <==> exists i :: 0 <= i < |clazz.memberFunctions| && Exposure(clazz.memberFunctions[i]) == Some(k)
    ensures forall k :: k in md.methods ==> md.methods[k].name == k
  {
    MethodsOfKeys(clazz.memberFunctions);
    ClassMetadata(GetAnnotation(clazz.annotations, ServiceClass).Some?, MethodsOf(clazz.memberFunctions))
  }

  /** `getClassMetadata`: one pass over the member functions, skipping the ones that are not
      public or not marked, then the service flag. */
  method GetClassMetadata(clazz: KClass) returns (md: ClassMetadata)
    ensures md == ClassMetadataOf(clazz)
  {
    var fs := clazz.memberFunctions;
    var methodMetadata: map<string, MethodMetadata> := map[];
    for i := 0 to |fs|
      invariant methodMetadata == MethodsOf(fs[..i])
    {
      assert fs[..i + 1][..i] == fs[..i];
      var f := fs[i];
      if f.visibility != Public {
        continue;
      }
      var rpcFunction := GetAnnotation(f.annotations, MethodClass);
      if rpcFunction.None? {
        continue;
      }
      var rpcFunctionName := if !IsBlank(rpcFunction.value.value) then rpcFunction.value.value else f.name;
      var rpcFunctionParams := GetFunctionParameters(f);
      methodMetadata := methodMetadata[rpcFunctionName := MethodMetadata(rpcFunctionName, f, rpcFunctionParams)];
    }
    assert fs[..|fs|] == fs;
    var isService := GetAnnotation(clazz.annotations, ServiceClass).Some?;
    md := ClassMetadata(isService, methodMetadata);
  }
}
