/**
 * Query strings as both sides use them: the page fills a `URLSearchParams`
 * by appending name/value pairs, and a handler reads a parameter with
 * `searchParams.get(name)`, which yields the FIRST value given for that
 * name, or `null` when there is none. Percent-encoding is the identity here.
 */
module SearchParams {
  import opened Wrappers

  type Params = seq<(string, string)>

  /** `name` first appears in `params` at index `i`. */
  predicate FirstAt(params: Params, name: string, i: nat) {
    i < |params| && params[i].0 == name && forall j :: 0 <= j < i ==> params[j].0 != name
  }

  /** `params.get(name)`. */
  function Get(params: Params, name: string): (r: Option<string>)
    ensures r.None? <==> forall i :: 0 <= i < |params| ==> params[i].0 != name
    ensures r.Some? ==> exists i: nat :: FirstAt(params, name, i) && params[i].1 == r.value
  {
    if params == [] then None
    else if params[0].0 == name then
      assert FirstAt(params, name, 0);
      Some(params[0].1)
    else
      var r := Get(params[1..], name);
      assert r.Some? ==> exists i: nat :: FirstAt(params, name, i) && params[i].1 == r.value by {
        if r.Some? {
          var i: nat :| FirstAt(params[1..], name, i) && params[1..][i].1 == r.value;
          assert FirstAt(params, name, i + 1);
        }
      }
      r
  }

  /** `params.append(name, value)`. */
  function Append(params: Params, name: string, value: string): Params {
    params + [(name, value)]
  }

  /** JavaScript truthiness of `get(...)`'s result: neither `null` nor `''`. */
  predicate Truthy(v: Option<string>) {
    v.Some? && v.value != ""
  }

  /** `get(name) || fallback`: the value when truthy, otherwise the fallback. */
  function OrElse(v: Option<string>, fallback: string): string {
    if Truthy(v) then v.value else fallback
  }

  /**
   * Reading after an append: a name that was already present keeps its first
   * value; a new name yields the appended value; other names are unaffected.
   */
  lemma GetAfterAppend(params: Params, name: string, value: string, key: string)
    ensures Get(Append(params, name, value), key) ==
      if Get(params, key).Some? then Get(params, key)
      else if key == name then Some(value)
      else None
  {
    var appended := Append(params, name, value);
    var r := Get(appended, key);
    if Get(params, key).Some? {
      var i: nat :| FirstAt(params, key, i) && params[i].1 == Get(params, key).value;
      assert FirstAt(appended, key, i);
      var k: nat :| FirstAt(appended, key, k) && appended[k].1 == r.value;
      FirstAtUnique(appended, key, i, k);
    } else if key == name {
      assert FirstAt(appended, key, |params|);
      var k: nat :| FirstAt(appended, key, k) && appended[k].1 == r.value;
      FirstAtUnique(appended, key, |params|, k);
    } else {
      assert forall i :: 0 <= i < |appended| ==> appended[i].0 != key by {
        forall i | 0 <= i < |appended| ensures appended[i].0 != key {
          if i < |params| { assert appended[i] == params[i]; }
        }
      }
    }
  }

  /** A name has at most one first position. */
  lemma FirstAtUnique(params: Params, name: string, i: nat, k: nat)
    requires FirstAt(params, name, i) && FirstAt(params, name, k)
    ensures i == k
  {
  }
}
