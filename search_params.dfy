/** The list operations of the URLSearchParams class, section 6.2 of the
    WHATWG URL Standard: `has`, `get`, `delete` and `set` on an ordered list
    of name-value pairs. The "update steps" that reserialize the owning URL
    after `delete` and `set` are in module Urls. */
module SearchParams {
  import opened Wrappers
  import opened FormUrlencoded

  /** `has(name)`: some pair carries the name. */
  predicate Has(q: Params, name: string) {
    exists i | 0 <= i < |q| :: q[i].0 == name
  }

  /** `i` is the position of the first pair named `name`. */
  ghost predicate FirstIndex(q: Params, name: string, i: int) {
    0 <= i < |q| && q[i].0 == name && forall j :: 0 <= j < i ==> q[j].0 != name
  }

  /** How many pairs carry the name. */
  ghost function Count(q: Params, name: string): nat {
    if q == [] then 0 else (if q[0].0 == name then 1 else 0) + Count(q[1..], name)
  }

  /** A subsequence: `a` is `b` with some elements left out, order kept. */
  ghost predicate IsSubsequence<T>(a: seq<T>, b: seq<T>)
    decreases |b|
  {
    a == [] || (b != [] && ((a[0] == b[0] && IsSubsequence(a[1..], b[1..])) || IsSubsequence(a, b[1..])))
  }

  /** `get(name)`: the value of the first pair with that name, or null. */
  function Get(q: Params, name: string): Option<string> {
    if q == [] then None
    else if q[0].0 == name then Some(q[0].1)
    else Get(q[1..], name)
  }

  /** `delete(name)`: removes every pair with that name. */
  function Delete(q: Params, name: string): Params {
    if q == [] then []
    else if q[0].0 == name then Delete(q[1..], name)
    else [q[0]] + Delete(q[1..], name)
  }

  /** `set(name, value)`: the first pair with that name gets the value and
      the others with that name go; without such a pair one is appended. */
  function Set(q: Params, name: string, value: string): Params {
    if q == [] then [(name, value)]
    else if q[0].0 == name then [(name, value)] + Delete(q[1..], name)
    else [q[0]] + Set(q[1..], name, value)
  }

  lemma HasTail(q: Params, name: string)
    requires q != []
    ensures Has(q, name) <==> q[0].0 == name || Has(q[1..], name)
  {
    if Has(q, name) && q[0].0 != name {
      var i :| 0 <= i < |q| && q[i].0 == name;
      assert q[1..][i - 1].0 == name;
    }
    if Has(q[1..], name) {
      var i :| 0 <= i < |q[1..]| && q[1..][i].0 == name;
      assert q[i + 1].0 == name;
    }
  }

  /** `has` is true exactly when some pair is counted. */
  lemma {:induction false} HasCount(q: Params, name: string)
    ensures Has(q, name) <==> Count(q, name) > 0
  {
    if q != [] {
      HasTail(q, name);
      HasCount(q[1..], name);
    }
  }

  /** `get` is null exactly when `has` is false, and otherwise returns the
      value of the first pair with that name. */
  lemma {:induction false} GetSpec(q: Params, name: string)
    ensures Get(q, name).None? <==> !Has(q, name)
    ensures forall i :: FirstIndex(q, name, i) ==> Get(q, name) == Some(q[i].1)
  {
    if q != [] {
      HasTail(q, name);
      GetSpec(q[1..], name);
      forall i | FirstIndex(q, name, i) ensures Get(q, name) == Some(q[i].1) {
        if i > 0 {
          assert FirstIndex(q[1..], name, i - 1);
        }
      }
    }
  }

  /** After `delete(name)` no pair has the name; every other pair keeps its
      multiplicity, and the order of what is left is the order of `q`. */
  lemma {:induction false} DeleteSpec(q: Params, name: string)
    ensures !Has(Delete(q, name), name)
    ensures forall p: (string, string) :: p.0 != name ==> multiset(Delete(q, name))[p] == multiset(q)[p]
    ensures IsSubsequence(Delete(q, name), q)
    ensures |Delete(q, name)| == |q| - Count(q, name)
  {
    if q != [] {
      DeleteSpec(q[1..], name);
      var d := Delete(q[1..], name);
      assert q == [q[0]] + q[1..];
      if q[0].0 == name {
        SubsequenceDropHead(d, q);
      } else {
        HasTail([q[0]] + d, name);
        assert ([q[0]] + d)[1..] == d;
        assert ([q[0]] + d)[0] == q[0];
      }
    }
  }

  lemma SubsequenceDropHead<T>(a: seq<T>, b: seq<T>)
    requires b != [] && IsSubsequence(a, b[1..])
    ensures IsSubsequence(a, b)
  {
  }

  /** Deleting a name that is absent changes nothing. */
  lemma {:induction false} DeleteAbsent(q: Params, name: string)
    requires !Has(q, name)
    ensures Delete(q, name) == q
  {
    if q != [] {
      HasTail(q, name);
      DeleteAbsent(q[1..], name);
    }
  }

  /** Deleting one name does not disturb `has` and `get` of any other. */
  lemma {:induction false} DeleteOther(q: Params, gone: string, name: string)
    requires gone != name
    ensures Has(Delete(q, gone), name) == Has(q, name)
    ensures Get(Delete(q, gone), name) == Get(q, name)
  {
    if q != [] {
      HasTail(q, name);
      DeleteOther(q[1..], gone, name);
      var d := Delete(q[1..], gone);
      if q[0].0 != gone {
        HasTail([q[0]] + d, name);
        assert ([q[0]] + d)[1..] == d;
      }
    }
  }

  /** After `set(name, value)`, `get(name)` is the value and exactly one
      pair has the name. */
  lemma {:induction false} SetGet(q: Params, name: string, value: string)
    ensures Get(Set(q, name, value), name) == Some(value)
    ensures Count(Set(q, name, value), name) == 1
  {
    if q != [] {
      var s := Set(q, name, value);
      if q[0].0 == name {
        var d := Delete(q[1..], name);
        DeleteSpec(q[1..], name);
        HasCount(d, name);
        assert s[1..] == d;
      } else {
        SetGet(q[1..], name, value);
        assert s[1..] == Set(q[1..], name, value);
      }
    }
  }

  /** `set(name, value)` leaves the pairs with other names as they were,
      in their order. */
  lemma {:induction false} SetKeepsOthers(q: Params, name: string, value: string)
    ensures Delete(Set(q, name, value), name) == Delete(q, name)
  {
    if q != [] {
      var s := Set(q, name, value);
      if q[0].0 == name {
        var d := Delete(q[1..], name);
        DeleteSpec(q[1..], name);
        DeleteAbsent(d, name);
        assert s[1..] == d;
      } else {
        SetKeepsOthers(q[1..], name, value);
        assert s[1..] == Set(q[1..], name, value);
      }
    }
  }

  /** Without a pair of that name, `set` appends one. */
  lemma {:induction false} SetAppends(q: Params, name: string, value: string)
    requires !Has(q, name)
    ensures Set(q, name, value) == q + [(name, value)]
  {
    if q != [] {
      HasTail(q, name);
      SetAppends(q[1..], name, value);
      assert q + [(name, value)] == [q[0]] + (q[1..] + [(name, value)]);
    }
  }

  /** With a first pair of that name at `i`, `set` puts the new pair there
      and drops the later pairs of that name. */
  lemma {:induction false} SetReplacesFirst(q: Params, name: string, value: string, i: int)
    requires FirstIndex(q, name, i)
    ensures Set(q, name, value) == q[..i] + [(name, value)] + Delete(q[i + 1..], name)
  {
    if i > 0 {
      assert FirstIndex(q[1..], name, i - 1);
      SetReplacesFirst(q[1..], name, value, i - 1);
      assert q[1..][..i - 1] == q[1..i];
      assert q[1..][i - 1 + 1..] == q[i + 1..];
      assert q[..i] == [q[0]] + q[1..i];
    }
  }

  /** Setting the same pair twice is the same as setting it once. */
  lemma {:induction false} SetIdempotent(q: Params, name: string, value: string)
    ensures Set(Set(q, name, value), name, value) == Set(q, name, value)
  {
    if q != [] {
      if q[0].0 == name {
        var d := Delete(q[1..], name);
        DeleteSpec(q[1..], name);
        DeleteAbsent(d, name);
        assert Delete(d, name) == d;
        assert ([(name, value)] + d)[1..] == d;
      } else {
        SetIdempotent(q[1..], name, value);
        assert ([q[0]] + Set(q[1..], name, value))[1..] == Set(q[1..], name, value);
      }
    }
  }
}
