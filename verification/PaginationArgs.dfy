/**
  * Reading pagination fields out of tool arguments (src/mcp_proxy/tool_response_pagination.py).
  * A set is iterated in an order that Python leaves open, so the order is a parameter here.
  */
module PaginationArgs {
  import opened Wrappers
  import opened Text
  import opened JsonValues

  const PAGINATION_ARG_KEYS := {"responseCacheId", "responseOffset", "responseLimit"}

  const PROXY_PARAM_PREFIX := "_proxy."

  function Namespaced(key: string): string {
    PROXY_PARAM_PREFIX + key
  }

  /** The namespaced spelling of one of these keys. */
  predicate IsNamespaced(k: string, keys: set<string>) {
    |k| >= |PROXY_PARAM_PREFIX| && k[..|PROXY_PARAM_PREFIX|] == PROXY_PARAM_PREFIX
    && k[|PROXY_PARAM_PREFIX|..] in keys
  }

  lemma NamespacedSpells(k: string, key: string, keys: set<string>)
    ensures IsNamespaced(k, keys + {key}) <==> IsNamespaced(k, keys) || k == Namespaced(key)
    ensures IsNamespaced(Namespaced(key), keys) <==> key in keys
  {
    assert Namespaced(key)[|PROXY_PARAM_PREFIX|..] == key;
    if |k| >= |PROXY_PARAM_PREFIX| {
      assert k == k[..|PROXY_PARAM_PREFIX|] + k[|PROXY_PARAM_PREFIX|..];
    }
  }

  /** A listing of the key set, in some order. */
  ghost predicate IsOrder(order: seq<string>) {
    && (forall i, j :: 0 <= i < j < |order| ==> order[i] != order[j])
    && (forall key :: key in order <==> key in PAGINATION_ARG_KEYS)
  }

  /** The keys of an argument object that belong to the proxy. */
  predicate IsProxyOwned(k: string, protected: set<string>) {
    IsNamespaced(k, PAGINATION_ARG_KEYS) || (k in PAGINATION_ARG_KEYS && k !in protected)
  }

  /** What is left for the upstream tool. */
  function Rest(raw: Args, protected: set<string>): Args {
    map k | k in raw && !IsProxyOwned(k, protected) :: raw[k]
  }

  /** The value of one pagination field: the namespaced spelling wins over the bare one. */
  function Peeled(raw: Args, protected: set<string>, key: string): Option<Json> {
    if Namespaced(key) in raw then Some(raw[Namespaced(key)])
    else if key in raw && key !in protected then Some(raw[key])
    else None
  }

  function PeeledAll(raw: Args, protected: set<string>): Args {
    map key | key in PAGINATION_ARG_KEYS && Peeled(raw, protected, key).Some? :: Peeled(raw, protected, key).value
  }

  /** `peel_pagination_params`; the result is the same in whatever order the set is iterated. */
  method PeelPaginationParams(raw: Args, protected: set<string>, order: seq<string>) returns (rest: Args, pag: Args)
    requires IsOrder(order)
    ensures rest == Rest(raw, protected)
    ensures pag == PeeledAll(raw, protected)
  {
    rest, pag := PeelNamespaced(raw, order);
    rest, pag := PeelBare(rest, pag, protected, order);
    RestIsBoth(raw, protected);
  }

  // What the first loop has removed and found once it has seen these keys.
  function RestNs(raw: Args, done: set<string>): Args {
    map k | k in raw && !IsNamespaced(k, done) :: raw[k]
  }

  function FoundNs(raw: Args, done: set<string>): Args {
    map key | key in done && Namespaced(key) in raw :: raw[Namespaced(key)]
  }

  lemma NamespacedStep(raw: Args, done: set<string>, key: string)
    requires key !in done
    ensures Namespaced(key) in RestNs(raw, done) <==> Namespaced(key) in raw
    ensures RestNs(raw, done + {key}) == RestNs(raw, done) - {Namespaced(key)}
    ensures FoundNs(raw, done + {key}) ==
      if Namespaced(key) in raw then FoundNs(raw, done)[key := raw[Namespaced(key)]] else FoundNs(raw, done)
  {
    hide IsNamespaced;
    forall k ensures IsNamespaced(k, done + {key}) <==> IsNamespaced(k, done) || k == Namespaced(key) {
      NamespacedSpells(k, key, done);
    }
    NamespacedSpells(key, key, done);
  }

  /** The first loop: the namespaced spellings. */
  method PeelNamespaced(raw: Args, order: seq<string>) returns (rest: Args, pag: Args)
    requires IsOrder(order)
    ensures rest == RestNs(raw, PAGINATION_ARG_KEYS)
    ensures pag == FoundNs(raw, PAGINATION_ARG_KEYS)
  {
    hide RestNs, FoundNs, Namespaced;
    rest, pag := raw, map[];
    ghost var done: set<string> := {};
    NothingDone(raw);
    for i := 0 to |order|
      invariant done == set k | k in order[..i]
      invariant rest == RestNs(raw, done) && pag == FoundNs(raw, done)
    {
      var key := order[i];
      assert order[..i + 1] == order[..i] + [key];
      NamespacedStep(raw, done, key);
      if Namespaced(key) in rest {
        InRestNs(raw, done, Namespaced(key));
        pag := pag[key := rest[Namespaced(key)]];
        rest := rest - {Namespaced(key)};
      }
      done := done + {key};
    }
    assert order[..|order|] == order;
    assert done == PAGINATION_ARG_KEYS;
  }

  lemma NothingDone(raw: Args)
    ensures RestNs(raw, {}) == raw && FoundNs(raw, {}) == map[]
  {
  }

  lemma InRestNs(raw: Args, done: set<string>, k: string)
    requires k in RestNs(raw, done)
    ensures k in raw && RestNs(raw, done)[k] == raw[k]
  {
  }

  // What the second loop has left and found once it has seen these keys.
  function RestBare(rest0: Args, protected: set<string>, done: set<string>): Args {
    map k | k in rest0 && !(k in done && k !in protected) :: rest0[k]
  }

  function FoundBare(rest0: Args, pag0: Args, protected: set<string>, done: set<string>): Args {
    pag0 + map k | k in done && k in rest0 && k !in protected && k !in pag0 :: rest0[k]
  }

  lemma RestBareStep(rest0: Args, protected: set<string>, done: set<string>, key: string)
    requires key !in done
    ensures key in RestBare(rest0, protected, done) <==> key in rest0
    ensures key in rest0 ==> RestBare(rest0, protected, done)[key] == rest0[key]
    ensures RestBare(rest0, protected, done + {key}) ==
      if key in rest0 && key !in protected then RestBare(rest0, protected, done) - {key}
      else RestBare(rest0, protected, done)
  {
  }

  lemma FoundBareStep(rest0: Args, pag0: Args, protected: set<string>, done: set<string>, key: string)
    requires key !in done
    ensures key in FoundBare(rest0, pag0, protected, done) <==> key in pag0
    ensures FoundBare(rest0, pag0, protected, done + {key}) ==
      if key in rest0 && key !in protected && key !in pag0
      then FoundBare(rest0, pag0, protected, done)[key := rest0[key]]
      else FoundBare(rest0, pag0, protected, done)
  {
  }

  /** The second loop: the bare spellings, consumed even where the namespaced one has won. */
  method PeelBare(rest0: Args, pag0: Args, protected: set<string>, order: seq<string>)
    returns (rest: Args, pag: Args)
    requires IsOrder(order)
    ensures rest == RestBare(rest0, protected, PAGINATION_ARG_KEYS)
    ensures pag == FoundBare(rest0, pag0, protected, PAGINATION_ARG_KEYS)
  {
    hide RestBare, FoundBare;
    rest, pag := rest0, pag0;
    ghost var done: set<string> := {};
    NothingBareDone(rest0, pag0, protected);
    for i := 0 to |order|
      invariant done == set k | k in order[..i]
      invariant rest == RestBare(rest0, protected, done) && pag == FoundBare(rest0, pag0, protected, done)
    {
      var key := order[i];
      assert order[..i + 1] == order[..i] + [key];
      RestBareStep(rest0, protected, done, key);
      FoundBareStep(rest0, pag0, protected, done, key);
      if key in rest && key !in protected {
        if key !in pag {
          pag := pag[key := rest[key]];
        }
        rest := rest - {key};
      }
      done := done + {key};
    }
    assert order[..|order|] == order;
    assert done == PAGINATION_ARG_KEYS;
  }

  lemma NothingBareDone(rest0: Args, pag0: Args, protected: set<string>)
    ensures RestBare(rest0, protected, {}) == rest0 && FoundBare(rest0, pag0, protected, {}) == pag0
  {
  }

  lemma BareIsNotNamespaced()
    ensures forall k :: k in PAGINATION_ARG_KEYS ==> !IsNamespaced(k, PAGINATION_ARG_KEYS)
  {
  }

  lemma RestIsBoth(raw: Args, protected: set<string>)
    ensures var rest0, pag0 := RestNs(raw, PAGINATION_ARG_KEYS), FoundNs(raw, PAGINATION_ARG_KEYS);
            && RestBare(rest0, protected, PAGINATION_ARG_KEYS) == Rest(raw, protected)
            && FoundBare(rest0, pag0, protected, PAGINATION_ARG_KEYS) == PeeledAll(raw, protected)
  {
    hide IsNamespaced, Namespaced;
    BareIsNotNamespaced();
  }

  /** The fields given under their namespaced spelling, and under a bare one that is the proxy's. */
  function NamespacedFields(raw: Args): set<string> {
    set key | key in PAGINATION_ARG_KEYS && Namespaced(key) in raw
  }

  function BareFields(raw: Args, protected: set<string>): set<string> {
    set key | key in PAGINATION_ARG_KEYS && key in raw && key !in protected
  }

  function Spelled(keys: set<string>): set<string> {
    set key | key in keys :: Namespaced(key)
  }

  lemma {:induction false} SpelledCount(keys: set<string>)
    ensures |Spelled(keys)| == |keys|
    decreases |keys|
  {
    if key :| key in keys {
      var others := keys - {key};
      SpelledCount(others);
      forall k | k in others ensures Namespaced(k) != Namespaced(key) {
        assert Namespaced(k)[|PROXY_PARAM_PREFIX|..] == k && Namespaced(key)[|PROXY_PARAM_PREFIX|..] == key;
      }
      assert Spelled(keys) == Spelled(others) + {Namespaced(key)};
    }
  }

  lemma UnionSize(a: set<string>, b: set<string>)
    ensures |a + b| + |a * b| == |a| + |b|
  {
  }

  lemma OwnedIsSpelled(raw: Args, protected: set<string>, k: string)
    requires k in raw
    ensures IsProxyOwned(k, protected) <==> k in Spelled(NamespacedFields(raw)) + BareFields(raw, protected)
    ensures !(k in Spelled(NamespacedFields(raw)) && k in BareFields(raw, protected))
  {
    BareIsNotNamespaced();
    if IsNamespaced(k, PAGINATION_ARG_KEYS) {
      var key := k[|PROXY_PARAM_PREFIX|..];
      assert k == Namespaced(key) && key in NamespacedFields(raw);
    }
    forall key | key in NamespacedFields(raw) && k == Namespaced(key) ensures IsNamespaced(k, PAGINATION_ARG_KEYS) {
      assert k[..|PROXY_PARAM_PREFIX|] == PROXY_PARAM_PREFIX && k[|PROXY_PARAM_PREFIX|..] == key;
    }
  }

  /** The keys of an argument object: what is left, and what is found under one spelling or the other. */
  lemma KeysAreSplit(raw: Args, protected: set<string>)
    ensures var spelled, bare := Spelled(NamespacedFields(raw)), BareFields(raw, protected);
            && raw.Keys == Rest(raw, protected).Keys + (spelled + bare)
            && Rest(raw, protected).Keys * (spelled + bare) == {} && spelled * bare == {}
  {
    hide IsProxyOwned;
    var spelled, bare := Spelled(NamespacedFields(raw)), BareFields(raw, protected);
    forall k | k in raw
      ensures IsProxyOwned(k, protected) <==> k in spelled + bare
      ensures !(k in spelled && k in bare)
    {
      OwnedIsSpelled(raw, protected, k);
    }
    assert forall k :: k in spelled + bare ==> k in raw;
  }

  /**
    * Nothing is lost or made up: every argument goes to one side and keeps its value, except that a field given under
    * both spellings counts once.
    */
  lemma PeelConserves(raw: Args, protected: set<string>)
    ensures |Rest(raw, protected)| + |PeeledAll(raw, protected)|
              + |NamespacedFields(raw) * BareFields(raw, protected)| == |raw|
    ensures PeeledAll(raw, protected).Keys == NamespacedFields(raw) + BareFields(raw, protected)
    ensures forall k :: k in Rest(raw, protected) ==> k in raw && Rest(raw, protected)[k] == raw[k]
  {
    assert PeeledAll(raw, protected).Keys == NamespacedFields(raw) + BareFields(raw, protected);
    hide NamespacedFields, BareFields, PeeledAll, Spelled;
    var named, bare, rest := NamespacedFields(raw), BareFields(raw, protected), Rest(raw, protected);
    SpelledCount(named);
    KeysAreSplit(raw, protected);
    UnionSize(named, bare);
    UnionSize(Spelled(named), bare);
    UnionSize(rest.Keys, Spelled(named) + bare);
    assert |raw| == |raw.Keys| && |rest| == |rest.Keys|;
    assert |PeeledAll(raw, protected)| == |PeeledAll(raw, protected).Keys|;
  }

  /** Peeling what has been peeled finds nothing more. */
  lemma PeelIdempotent(raw: Args, protected: set<string>)
    ensures Rest(Rest(raw, protected), protected) == Rest(raw, protected)
    ensures PeeledAll(Rest(raw, protected), protected) == map[]
  {
    hide IsNamespaced;
    forall key | key in PAGINATION_ARG_KEYS ensures IsNamespaced(Namespaced(key), PAGINATION_ARG_KEYS) {
      NamespacedSpells(key, key, PAGINATION_ARG_KEYS);
    }
  }

  // ---- callTool ----

  /** `wrap_hot_tool_as_call_tool` */
  function WrapHotTool(toolName: string, arguments: Args, declared: set<string>): Args {
    map["toolName" := Str(toolName), "arguments" := Obj(Rest(arguments, declared))] + PeeledAll(arguments, declared)
  }

  /** The callTool arguments of a client that names the tool itself. */
  function DirectCall(toolName: string, arguments: Args): Args {
    map["toolName" := Str(toolName), "arguments" := Obj(arguments)]
  }

  function NestedArgs(call: Args): Option<Args> {
    if "arguments" in call && call["arguments"].Obj? then Some(call["arguments"].fields) else None
  }

  /** The merged pagination field, by the four levels of precedence. */
  function Merged(call: Args, declared: set<string>, key: string): Option<Json> {
    if Namespaced(key) in call then Some(call[Namespaced(key)])
    else if key in call then Some(call[key])
    else
      var nested :- NestedArgs(call);
      Peeled(nested, declared, key)
  }

  function MergedAll(call: Args, declared: set<string>): Args {
    map key | key in PAGINATION_ARG_KEYS && Merged(call, declared, key).Some? :: Merged(call, declared, key).value
  }

  function CleanArguments(call: Args, declared: set<string>): Option<Args> {
    var nested :- NestedArgs(call);
    Some(Rest(nested, declared))
  }

  /** The merging part of `parse_call_tool_pagination`, in whatever order the set is iterated. */
  method MergePagination(call: Args, declared: set<string>, order: seq<string>)
    returns (clean: Option<Args>, merged: Args)
    requires IsOrder(order)
    ensures clean == CleanArguments(call, declared)
    ensures merged == MergedAll(call, declared)
  {
    hide Rest, PeeledAll, MergedSoFar, MergedAll;
    clean, merged := None, map[];
    var nested := NestedArgs(call);
    if nested.Some? {
      var rest, found := PeelPaginationParams(nested.value, declared, order);
      clean, merged := Some(rest), found;
    }
    MergedIsBoth(call, declared, merged);
    merged := MergeTopLevel(call, merged, order);
  }

  function TopLevel(call: Args, key: string): Option<Json> {
    if Namespaced(key) in call then Some(call[Namespaced(key)])
    else if key in call then Some(call[key])
    else None
  }

  function MergedSoFar(call: Args, found: Args, done: set<string>): Args {
    found + map k | k in done && TopLevel(call, k).Some? :: TopLevel(call, k).value
  }

  lemma MergedIsBoth(call: Args, declared: set<string>, found: Args)
    requires found == if NestedArgs(call).Some? then PeeledAll(NestedArgs(call).value, declared) else map[]
    ensures MergedSoFar(call, found, PAGINATION_ARG_KEYS) == MergedAll(call, declared)
  {
    hide Peeled, Namespaced;
  }

  lemma NothingMerged(call: Args, found: Args)
    ensures MergedSoFar(call, found, {}) == found
  {
  }

  lemma MergeStep(call: Args, found: Args, done: set<string>, key: string)
    ensures MergedSoFar(call, found, done + {key}) ==
      if TopLevel(call, key).Some? then MergedSoFar(call, found, done)[key := TopLevel(call, key).value]
      else MergedSoFar(call, found, done)
  {
    hide TopLevel;
  }

  lemma UpdateTwice(m: Args, key: string, a: Json, b: Json)
    ensures m[key := a][key := b] == m[key := b]
  {
  }

  /** The loop that lets the top level of the call override what was found in its arguments. */
  method MergeTopLevel(call: Args, found: Args, order: seq<string>) returns (merged: Args)
    requires IsOrder(order)
    ensures merged == MergedSoFar(call, found, PAGINATION_ARG_KEYS)
  {
    hide MergedSoFar, Namespaced;
    merged := found;
    ghost var done: set<string> := {};
    NothingMerged(call, found);
    for i := 0 to |order|
      invariant done == set k | k in order[..i]
      invariant merged == MergedSoFar(call, found, done)
    {
      var key := order[i];
      assert order[..i + 1] == order[..i] + [key];
      MergeStep(call, found, done, key);
      if key in call && Namespaced(key) in call {
        UpdateTwice(merged, key, call[key], call[Namespaced(key)]);
      }
      if key in call {
        merged := merged[key := call[key]];
      }
      if Namespaced(key) in call {
        merged := merged[key := call[Namespaced(key)]];
      }
      done := done + {key};
    }
    assert order[..|order|] == order;
    assert done == PAGINATION_ARG_KEYS;
  }

  lemma CallKeysAreNotPagination(key: string)
    requires key in PAGINATION_ARG_KEYS
    ensures key !in {"toolName", "arguments"} && Namespaced(key) !in {"toolName", "arguments"}
    ensures Namespaced(key) !in PAGINATION_ARG_KEYS
  {
    assert Namespaced(key)[0] == '_';
  }

  /**
    * A popular shortcut is the same call: wrapping its arguments and parsing the wrapped call gives
    * the upstream arguments and the pagination fields of the direct callTool.
    */
  lemma HotShortcutIsDirectCall(toolName: string, arguments: Args, declared: set<string>)
    ensures CleanArguments(WrapHotTool(toolName, arguments, declared), declared)
      == CleanArguments(DirectCall(toolName, arguments), declared)
    ensures MergedAll(WrapHotTool(toolName, arguments, declared), declared)
      == MergedAll(DirectCall(toolName, arguments), declared)
  {
    hide Rest, Peeled, Namespaced, PeeledAll;
    var hot, direct := WrapHotTool(toolName, arguments, declared), DirectCall(toolName, arguments);
    PeelIdempotent(arguments, declared);
    HotFields(toolName, arguments, declared);
    forall key | key in PAGINATION_ARG_KEYS ensures Merged(hot, declared, key) == Merged(direct, declared, key) {
      CallKeysAreNotPagination(key);
      PeeledLookup(arguments, declared, key);
      PeeledLookup(Rest(arguments, declared), declared, key);
    }
  }

  lemma HotFields(toolName: string, arguments: Args, declared: set<string>)
    ensures NestedArgs(WrapHotTool(toolName, arguments, declared)) == Some(Rest(arguments, declared))
    ensures var hot := WrapHotTool(toolName, arguments, declared);
            forall k :: k in hot <==> k in {"toolName", "arguments"} || k in PeeledAll(arguments, declared)
    ensures var hot := WrapHotTool(toolName, arguments, declared);
            forall k :: k in PeeledAll(arguments, declared) ==> hot[k] == PeeledAll(arguments, declared)[k]
  {
    hide Peeled, Rest;
  }

  lemma PeeledLookup(raw: Args, protected: set<string>, key: string)
    requires key in PAGINATION_ARG_KEYS
    ensures Peeled(raw, protected, key) ==
      if key in PeeledAll(raw, protected) then Some(PeeledAll(raw, protected)[key]) else None
    ensures PeeledAll(raw, protected).Keys <= PAGINATION_ARG_KEYS
  {
    hide Peeled;
  }

  // ---- reading the fields ----

  datatype Request = Request(cacheId: Option<string>, offset: nat, limit: Option<nat>)

  datatype ParseError = BadCacheId | BadOffset | NegativeOffset | BadLimit | LimitBelowOne

  /** Who wins, spelled out: the top level over the nested arguments, and on each level the namespaced spelling. */
  lemma Precedence(call: Args, declared: set<string>, key: string)
    requires key in {"responseCacheId", "responseOffset", "responseLimit"}
    ensures var merged, spelled := MergedAll(call, declared), "_proxy." + key;
            var nested: Args :=
              if "arguments" in call && call["arguments"].Obj? then call["arguments"].fields else map[];
            && merged.Keys <= {"responseCacheId", "responseOffset", "responseLimit"}
            && (spelled in call ==> key in merged && merged[key] == call[spelled])
            && (spelled !in call && key in call ==> key in merged && merged[key] == call[key])
            && (spelled !in call && key !in call ==>
                  && (spelled in nested ==> key in merged && merged[key] == nested[spelled])
                  && (spelled !in nested && key in nested && key !in declared ==>
                        key in merged && merged[key] == nested[key])
                  && (spelled !in nested && (key !in nested || key in declared) ==> key !in merged))
  {
    hide Namespaced;
    NamespacedIs(key);
  }

  lemma NamespacedIs(key: string)
    ensures Namespaced(key) == "_proxy." + key
  {
  }

  /** What is left for the tool, spelled out: all but the six spellings, of which it keeps the bare ones it declares. */
  lemma RestExactly(raw: Args, declared: set<string>, k: string)
    ensures var bare := {"responseCacheId", "responseOffset", "responseLimit"};
            k in Rest(raw, declared) <==>
              && k in raw && (k in bare ==> k in declared)
              && k != "_proxy." + "responseCacheId"
              && k != "_proxy." + "responseOffset"
              && k != "_proxy." + "responseLimit"
    ensures k in Rest(raw, declared) ==> Rest(raw, declared)[k] == raw[k]
  {
    hide IsNamespaced, Namespaced;
    NamespacedExactly(k);
    BareIsNotNamespaced();
  }

  lemma NamespacedExactly(k: string)
    ensures IsNamespaced(k, PAGINATION_ARG_KEYS) <==>
      || k == "_proxy." + "responseCacheId"
      || k == "_proxy." + "responseOffset"
      || k == "_proxy." + "responseLimit"
  {
    hide IsNamespaced, Namespaced;
    var a, b, c := "responseCacheId", "responseOffset", "responseLimit";
    NamespacedSpells(k, a, {});
    NamespacedSpells(k, b, {a});
    NamespacedSpells(k, c, {a, b});
    NamespacedIs(a);
    NamespacedIs(b);
    NamespacedIs(c);
    NoneNamespaced(k);
    assert {} + {a} == {a} && {a} + {b} == {a, b} && {a, b} + {c} == PAGINATION_ARG_KEYS;
  }

  lemma NoneNamespaced(k: string)
    ensures !IsNamespaced(k, {})
  {
  }

  function Field(fields: Args, key: string): Json {
    if key in fields then fields[key] else Null
  }

  function ParseCacheId(raw: Json): Result<Option<string>, ParseError> {
    if raw.Null? then Ok(None)
    else if !raw.Str? || Strip(raw.s) == "" then Err(BadCacheId)
    else Ok(Some(Strip(raw.s)))
  }

  function ParseOffset(raw: Json, toInt: Json -> Option<int>): Result<nat, ParseError> {
    if raw.Null? then Ok(0)
    else
      var n := toInt(raw);
      if n.None? then Err(BadOffset) else if n.value < 0 then Err(NegativeOffset) else Ok(n.value)
  }

  function ParseLimit(raw: Json, page: int, toInt: Json -> Option<int>): (r: Result<Option<nat>, ParseError>)
    ensures r.Ok? && r.value.Some? ==> r.value.value >= 1 && (page > 0 ==> r.value.value <= page)
  {
    if raw.Null? then Ok(None)
    else
      var n := toInt(raw);
      if n.None? then Err(BadLimit)
      else if n.value < 1 then Err(LimitBelowOne)
      else Ok(Some(if page > 0 && page < n.value then page else n.value))
  }

  /** `parse_response_pagination`; `toInt` is Python's `int`, None where it raises. */
  function ParseRequest(fields: Args, page: int, toInt: Json -> Option<int>): Result<Request, ParseError> {
    var cacheId :- ParseCacheId(Field(fields, "responseCacheId"));
    var offset :- ParseOffset(Field(fields, "responseOffset"), toInt);
    var limit :- ParseLimit(Field(fields, "responseLimit"), page, toInt);
    Ok(Request(cacheId, offset, limit))
  }

  /** A field that is missing, or given as null. */
  predicate Absent(fields: Args, key: string) {
    key in fields ==> fields[key].Null?
  }

  /** What is accepted: an id that is not blank, an offset from zero, a limit from one to the page. */
  lemma ParseExactly(fields: Args, page: int, toInt: Json -> Option<int>)
    ensures var r := ParseRequest(fields, page, toInt);
            var id, offset, limit := "responseCacheId", "responseOffset", "responseLimit";
            && (r.Ok? <==>
                  && (Absent(fields, id) || (fields[id].Str? && Strip(fields[id].s) != ""))
                  && (Absent(fields, offset) || (toInt(fields[offset]).Some? && toInt(fields[offset]).value >= 0))
                  && (Absent(fields, limit) || (toInt(fields[limit]).Some? && toInt(fields[limit]).value >= 1)))
            && (r.Ok? ==>
                  && r.value.cacheId == (if Absent(fields, id) then None else Some(Strip(fields[id].s)))
                  && r.value.offset == (if Absent(fields, offset) then 0 else toInt(fields[offset]).value)
                  && (r.value.limit.None? <==> Absent(fields, limit))
                  && (r.value.limit.Some? ==>
                        var n, wanted := r.value.limit.value, toInt(fields[limit]).value;
                        n <= wanted && (n == wanted || n == page) && (page > 0 ==> n <= page)))
  {
    hide Strip;
  }

  /** Which complaint is made: the first field that is wrong decides, in the order id, offset, limit. */
  lemma ComplaintExactly(fields: Args, page: int, toInt: Json -> Option<int>)
    ensures var r := ParseRequest(fields, page, toInt);
            var id, offset, limit := "responseCacheId", "responseOffset", "responseLimit";
            r.Err? ==>
              r.error == (
                if !Absent(fields, id) && !(fields[id].Str? && Strip(fields[id].s) != "") then BadCacheId
                else if !Absent(fields, offset) && toInt(fields[offset]).None? then BadOffset
                else if !Absent(fields, offset) && toInt(fields[offset]).value < 0 then NegativeOffset
                else if !Absent(fields, limit) && toInt(fields[limit]).None? then BadLimit
                else LimitBelowOne)
  {
    hide Strip;
  }
}
