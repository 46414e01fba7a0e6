/**
 * The parts of a WHATWG URL record the extension reads and writes, and the
 * query-string operations of `URLSearchParams` (section 6.2 of the WHATWG URL
 * Standard) it uses: `get` and `set`.
 */
module Url {

  import opened Base
  import opened JsText

  /** One `name=value` pair of a query string. */
  datatype Param = Param(name: string, value: string)

  /**
   * A parsed URL: `protocol` without the colon, `hostname`, `pathname`, the
   * pairs of `searchParams` in order, and the fragment.
   */
  datatype Url = Url(scheme: string, host: string, path: string, query: seq<Param>, fragment: Option<string>)

  /**
   * A URL string: one that `new URL(...)` turns into a record, or one it
   * rejects (with a TypeError, which every caller in the extension catches).
   */
  datatype UrlText = Parsed(url: Url) | Unparsable(raw: string)

  /** `URLSearchParams.toString()`, without percent-encoding. */
  function QueryString(q: seq<Param>): string
    decreases |q|
  {
    if q == [] then ""
    else if |q| == 1 then q[0].name + "=" + q[0].value
    else q[0].name + "=" + q[0].value + "&" + QueryString(q[1..])
  }

  /** `url.href`: the serialization of a record (simplified: no percent-encoding, no port, no credentials). */
  function Href(u: Url): string {
    u.scheme + ":" + (if u.host != "" then "//" + u.host else "") + u.path
    + (if u.query != [] then "?" + QueryString(u.query) else "")
    + (match u.fragment case Some(f) => "#" + f case None => "")
  }

  /** The string itself: what a regular expression over the URL text sees. */
  function Text(t: UrlText): string {
    match t
    case Parsed(u) => Href(u)
    case Unparsable(raw) => raw
  }

  // ---------------------------------------------------------------------------
  // URLSearchParams

  /** No pair of `q` is named `name`. */
  predicate Absent(q: seq<Param>, name: string) {
    forall k :: 0 <= k < |q| ==> q[k].name != name
  }

  /** The pairs of `q` whose name is not `name`, in order. */
  function RemoveAll(q: seq<Param>, name: string): (r: seq<Param>)
    ensures Absent(r, name)
    ensures |r| <= |q|
    ensures Absent(q, name) ==> r == q
    decreases |q|
  {
    if q == [] then []
    else if q[0].name == name then RemoveAll(q[1..], name)
    else [q[0]] + RemoveAll(q[1..], name)
  }

  lemma {:induction false} RemoveAllAppend(a: seq<Param>, b: seq<Param>, name: string)
    ensures RemoveAll(a + b, name) == RemoveAll(a, name) + RemoveAll(b, name)
    decreases |a|
  {
    if a == [] {
      assert a + b == b;
    } else {
      assert (a + b)[1..] == a[1..] + b;
      RemoveAllAppend(a[1..], b, name);
    }
  }

  /** Index of the first pair named `name`. */
  function FirstNamed(q: seq<Param>, name: string): (r: Option<nat>)
    ensures r.None? <==> Absent(q, name)
    ensures r.Some? ==> r.value < |q| && q[r.value].name == name && Absent(q[..r.value], name)
    decreases |q|
  {
    if q == [] then None
    else if q[0].name == name then
      assert Absent(q[..0], name);
      Some(0)
    else
      match FirstNamed(q[1..], name)
      case None => None
      case Some(k) =>
        assert q[..k + 1] == [q[0]] + q[1..][..k];
        Some(k + 1)
  }

  /** The first pair named `name` is at `k`. */
  lemma FirstNamedIs(q: seq<Param>, name: string, k: nat)
    requires k < |q| && q[k].name == name && Absent(q[..k], name)
    ensures FirstNamed(q, name) == Some(k)
  {
    assert !Absent(q, name);
    var j := FirstNamed(q, name).value;
    AbsentPrefix(q, name, k);
    AbsentPrefix(q, name, j);
  }

  lemma AbsentPrefix(q: seq<Param>, name: string, k: nat)
    requires k <= |q| && Absent(q[..k], name)
    ensures forall i :: 0 <= i < k ==> q[i].name != name
  {
    forall i | 0 <= i < k ensures q[i].name != name {
      assert q[..k][i] == q[i];
    }
  }

  /** The search skips a prefix without pairs named `name`. */
  lemma FirstNamedAfterAbsent(a: seq<Param>, b: seq<Param>, name: string)
    requires Absent(a, name)
    ensures FirstNamed(a + b, name) == (match FirstNamed(b, name) case None => None case Some(j) => Some(|a| + j))
  {
    var ab := a + b;
    match FirstNamed(b, name)
    case None =>
      assert forall k :: 0 <= k < |ab| ==> ab[k].name != name by {
        forall k | 0 <= k < |ab| ensures ab[k].name != name {
          if k >= |a| {
            assert ab[k] == b[k - |a|];
          }
        }
      }
    case Some(j) =>
      assert ab[..|a| + j] == a + b[..j];
      FirstNamedIs(ab, name, |a| + j);
  }

  /** `searchParams.get(name)`: the value of the first pair named `name`, or null. */
  function Get(q: seq<Param>, name: string): (r: Option<string>)
    ensures r.None? <==> Absent(q, name)
    ensures r.Some? ==> exists k :: 0 <= k < |q| && q[k] == Param(name, r.value) && Absent(q[..k], name)
  {
    match FirstNamed(q, name)
    case None => None
    case Some(k) =>
      assert q[k] == Param(name, q[k].value);
      Some(q[k].value)
  }

  /**
   * `searchParams.set(name, value)`: the first pair named `name` takes the new
   * value and the other pairs with that name are removed; with no such pair,
   * the new pair is appended.
   */
  function Set(q: seq<Param>, name: string, value: string): seq<Param> {
    match FirstNamed(q, name)
    case None => q + [Param(name, value)]
    case Some(k) => q[..k] + [Param(name, value)] + RemoveAll(q[k + 1..], name)
  }

  /** Where `set` put the pair named `name`. */
  lemma FirstNamedAfterSet(q: seq<Param>, name: string, value: string)
    ensures FirstNamed(Set(q, name, value), name) == Some(match FirstNamed(q, name) case None => |q| case Some(k) => k)
  {
    var r := Set(q, name, value);
    match FirstNamed(q, name)
    case None =>
      assert r[..|q|] == q;
      FirstNamedIs(r, name, |q|);
    case Some(k) =>
      assert r[..k] == q[..k];
      FirstNamedIs(r, name, k);
  }

  /** After `set`, `get` returns the value set. */
  lemma SetThenGet(q: seq<Param>, name: string, value: string)
    ensures Get(Set(q, name, value), name) == Some(value)
  {
    FirstNamedAfterSet(q, name, value);
    var r := Set(q, name, value);
    match FirstNamed(q, name)
    case None =>
      assert r[|q|] == Param(name, value);
    case Some(k) =>
      assert r[k] == Param(name, value);
  }

  /** `set` keeps every pair with another name, in order. */
  lemma SetKeepsOthers(q: seq<Param>, name: string, value: string)
    ensures RemoveAll(Set(q, name, value), name) == RemoveAll(q, name)
  {
    var r := Set(q, name, value);
    var p := [Param(name, value)];
    match FirstNamed(q, name)
    case None =>
      RemoveAllAppend(q, p, name);
    case Some(k) =>
      assert q == q[..k] + [q[k]] + q[k + 1..];
      SpliceRemoved(q[..k], q[k + 1..], q[k], Param(name, value), name);
  }

  /** Swapping one pair named `name` for another, and dropping later ones, leaves the other pairs as they were. */
  lemma SpliceRemoved(pre: seq<Param>, post: seq<Param>, a: Param, b: Param, name: string)
    requires a.name == name && b.name == name
    ensures RemoveAll(pre + [b] + RemoveAll(post, name), name) == RemoveAll(pre + [a] + post, name)
  {
    var tail := RemoveAll(post, name);
    RemoveAllAppend(pre + [b], tail, name);
    RemoveAllAppend(pre, [b], name);
    RemoveAllIdempotent(post, name);
    RemoveAllAppend(pre + [a], post, name);
    RemoveAllAppend(pre, [a], name);
    assert RemoveAll([a], name) == [] == RemoveAll([b], name);
  }

  lemma {:induction false} RemoveAllIdempotent(q: seq<Param>, name: string)
    ensures RemoveAll(RemoveAll(q, name), name) == RemoveAll(q, name)
  {
  }

  /** `get(other)` depends only on the pairs not named `name`. */
  lemma {:induction false} GetIgnoresRemoved(q: seq<Param>, name: string, other: string)
    requires other != name
    ensures Get(RemoveAll(q, name), other) == Get(q, other)
    decreases |q|
  {
    if q != [] {
      GetIgnoresRemoved(q[1..], name, other);
      if q[0].name != name {
        assert RemoveAll(q, name) == [q[0]] + RemoveAll(q[1..], name);
      }
    }
  }

  /** `get` of any other name is unaffected by `set`. */
  lemma GetOtherAfterSet(q: seq<Param>, name: string, value: string, other: string)
    requires other != name
    ensures Get(Set(q, name, value), other) == Get(q, other)
  {
    GetIgnoresRemoved(q, name, other);
    GetIgnoresRemoved(Set(q, name, value), name, other);
    SetKeepsOthers(q, name, value);
  }

  /** A second `set` of the same name overrides the first; setting the same value twice changes nothing. */
  lemma SetSet(q: seq<Param>, name: string, a: string, b: string)
    ensures Set(Set(q, name, a), name, b) == Set(q, name, b)
  {
    var r := Set(q, name, a);
    FirstNamedAfterSet(q, name, a);
    match FirstNamed(q, name)
    case None =>
      assert r[..|q|] == q;
      assert r[|q| + 1..] == [];
    case Some(k) =>
      var tail := RemoveAll(q[k + 1..], name);
      assert r[..k] == q[..k];
      assert r[k + 1..] == tail;
      RemoveAllIdempotent(q[k + 1..], name);
  }
}
