/**
  * Per-client tool policy (src/mcp_proxy/client_policy.py) and the normalisation of the stored
  * list it is computed from (src/mcp_proxy/client_store.py).
  */
module ClientPolicy {
  import opened Wrappers
  import opened Text
  import opened ToolNames
  import opened ToolNameLaws

  /** `client_disabled_tools`: the canonical keys of the stored entries; no client, no entries. */
  function ClientDisabledTools(stored: Option<seq<string>>): set<string> {
    if stored.None? then {} else set x | x in stored.value :: Key(x)
  }

  /** `is_tool_disabled`, with its raw membership test first */
  predicate IsToolDisabled(wire: string, disabled: set<string>) {
    wire in disabled || Key(wire) in disabled
  }

  /** Some stored entry names the same tool as the wire name. */
  ghost predicate Blocks(stored: seq<string>, wire: string) {
    exists x :: x in stored && SameTool(x, wire)
  }

  /**
    * One stored entry blocks every spelling of its tool and nothing else; in particular the raw
    * membership test never decides anything the canonical keys do not.
    */
  lemma PolicyExact(stored: seq<string>, wire: string)
    ensures IsToolDisabled(wire, ClientDisabledTools(Some(stored))) <==> Blocks(stored, wire)
    ensures IsToolDisabled(wire, ClientDisabledTools(Some(stored)))
      <==> Key(wire) in ClientDisabledTools(Some(stored))
    ensures !IsToolDisabled(wire, ClientDisabledTools(None))
  {
    hide Key, SameTool;
    forall x | x in stored ensures Key(x) == Key(wire) <==> SameTool(x, wire) {
      KeyKernel(x, wire);
    }
    forall x | x in stored && wire == Key(x) ensures Key(x) == Key(wire) {
      KeyIdempotent(x);
    }
  }

  /** What a name is reduced to before it is stored; None for a blank one. */
  function StoredName(raw: string): Option<string> {
    if Strip(raw) == "" then None else Some(Key(Strip(raw)))
  }

  /** The list `normalize_disabled_tools` builds: the stored names in order of first appearance. */
  function Normalized(v: seq<string>): (out: seq<string>)
  {
    if v == [] then []
    else
      var out, name := Normalized(v[..|v| - 1]), StoredName(v[|v| - 1]);
      if name.None? || name.value in out then out else out + [name.value]
  }

  /** `normalize_disabled_tools` */
  method NormalizeDisabledTools(v: seq<string>) returns (out: seq<string>)
    ensures out == Normalized(v)
  {
    hide Key, Strip;
    var seen: set<string> := {};
    out := [];
    for i := 0 to |v|
      invariant out == Normalized(v[..i])
      invariant seen == set x | x in out
    {
      assert v[..i + 1][..i] == v[..i];
      var name := Strip(v[i]);
      if name != "" {
        name := Key(name);
        if name !in seen {
          seen := seen + {name};
          out := out + [name];
        }
      }
    }
    assert v[..|v|] == v;
  }

  lemma StoredNameIsFixed(raw: string)
    requires StoredName(raw).Some?
    ensures StoredName(StoredName(raw).value) == StoredName(raw)
  {
    hide Decode, Encode, Strip;
    var name := Strip(raw);
    StripIsStripped(raw);
    KeyIdempotent(name);
    if Decode(name).Some? {
      EncodingIsStripped(Decode(name).value);
    }
    StripFixesStripped(Key(name));
  }

  /** The normalised list holds exactly the stored names of the entries. */
  lemma {:induction false} NormalizedHolds(v: seq<string>, y: string)
    ensures y in Normalized(v) <==> exists x :: x in v && StoredName(x) == Some(y)
  {
    hide StoredName;
    if v != [] {
      var front, last := v[..|v| - 1], v[|v| - 1];
      NormalizedHolds(front, y);
      assert v == front + [last];
      assert forall x :: x in v <==> x in front || x == last;
    }
  }

  lemma {:induction false} NormalizedDistinct(v: seq<string>)
    ensures Distinct(Normalized(v))
  {
    hide StoredName;
    if v != [] {
      NormalizedDistinct(v[..|v| - 1]);
    }
  }

  /** More entries only add names, at the end: so the list is in order of first appearance. */
  lemma {:induction false} NormalizedGrows(v: seq<string>, more: seq<string>)
    ensures Normalized(v) <= Normalized(v + more)
    decreases |more|
  {
    hide StoredName;
    if more == [] {
      assert v + more == v;
    } else {
      NormalizedGrows(v, more[..|more| - 1]);
      assert (v + more)[..|v + more| - 1] == v + more[..|more| - 1];
    }
  }

  /** Every name in the normalised list is its own stored name and its own canonical key. */
  lemma NormalizedIsCanonical(v: seq<string>, y: string)
    requires y in Normalized(v)
    ensures StoredName(y) == Some(y) && Key(y) == y
  {
    hide StoredName, Key;
    NormalizedHolds(v, y);
    var x :| x in v && StoredName(x) == Some(y);
    StoredNameIsFixed(x);
    StoredNameIsKey(x);
  }

  lemma StoredNameIsKey(raw: string)
    requires StoredName(raw).Some?
    ensures Key(StoredName(raw).value) == StoredName(raw).value
  {
    KeyIdempotent(Strip(raw));
  }

  lemma {:induction false} NormalizedFixes(v: seq<string>)
    requires Distinct(v) && forall y :: y in v ==> StoredName(y) == Some(y)
    ensures Normalized(v) == v
  {
    hide StoredName;
    if v != [] {
      var front, last := v[..|v| - 1], v[|v| - 1];
      NormalizedFixes(front);
      assert StoredName(last) == Some(last) && last !in front;
      assert v == front + [last];
    }
  }

  /** Normalising twice is normalising once. */
  lemma NormalizeIdempotent(v: seq<string>)
    ensures Normalized(Normalized(v)) == Normalized(v)
  {
    hide StoredName, Key, Normalized;
    NormalizedDistinct(v);
    forall y | y in Normalized(v) ensures StoredName(y) == Some(y) {
      NormalizedIsCanonical(v, y);
    }
    NormalizedFixes(Normalized(v));
  }

  /** A normalised list blocks exactly the tools named by the non-blank entries it came from. */
  lemma NormalizePreservesPolicy(v: seq<string>, wire: string)
    ensures Blocks(Normalized(v), wire) <==>
      exists x :: x in v && Strip(x) != "" && SameTool(Strip(x), wire)
  {
    hide Key, SameTool;
    forall y ensures y in Normalized(v) <==> exists x :: x in v && StoredName(x) == Some(y) {
      NormalizedHolds(v, y);
    }
    forall x | x in v && Strip(x) != ""
      ensures SameTool(Strip(x), wire) <==> SameTool(Key(Strip(x)), wire)
    {
      KeyIdempotent(Strip(x));
      KeyKernel(Strip(x), wire);
      KeyKernel(Key(Strip(x)), wire);
    }
    if x :| x in v && Strip(x) != "" && SameTool(Strip(x), wire) {
      assert StoredName(x) == Some(Key(Strip(x)));
      assert Key(Strip(x)) in Normalized(v);
    }
    if y :| y in Normalized(v) && SameTool(y, wire) {
      var x :| x in v && StoredName(x) == Some(y);
      assert Strip(x) != "" && y == Key(Strip(x));
    }
  }
}
