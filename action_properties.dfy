/** What each action of the link rewriter does, the fallbacks, the
    composition of the pipeline, and the addSuffix separator defect. */
module ActionProperties {
  import opened Wrappers
  import opened Strings
  import opened FormUrlencoded
  import opened SearchParams
  import opened Urls
  import opened LinkRewriter

  /** `removeQueryParam` without `ifValueIs` deletes every pair with the
      key; with it, it deletes them only when the FIRST pair with the key
      carries that value, and otherwise changes nothing. The pairs with
      other keys keep their multiplicity and order. */
  lemma RemoveQueryParamSpec(u: Url, key: string, ifValueIs: Option<string>, env: Env)
    requires key != ""
    ensures var r := ApplyAction(u, RemoveQueryParam(Some(key), ifValueIs), env);
      var fires := ifValueIs.None? ||
        exists i :: FirstIndex(u.params, key, i) && u.params[i].1 == ifValueIs.value;
      && (fires ==>
           && !Has(r.params, key)
           && (forall p: (string, string) :: p.0 != key ==> multiset(r.params)[p] == multiset(u.params)[p])
           && IsSubsequence(r.params, u.params)
           && Reserialized(r, env.formEncode)
           && r.origin == u.origin && r.host == u.host && r.pathname == u.pathname && r.hash == u.hash)
      && (!fires ==> r == u)
  {
    GetSpec(u.params, key);
    DeleteSpec(u.params, key);
    if Has(u.params, key) {
      var i := FirstIndexOfHas(u.params, key);
    }
  }

  /** Every key that is present has a first position, and `get` returns
      the value there. */
  lemma {:induction false} FirstIndexOfHas(q: Params, key: string) returns (i: int)
    requires Has(q, key)
    ensures FirstIndex(q, key, i) && Get(q, key) == Some(q[i].1)
  {
    GetSpec(q, key);
    HasTail(q, key);
    if q[0].0 == key {
      i := 0;
    } else {
      var j := FirstIndexOfHas(q[1..], key);
      i := j + 1;
    }
  }

  /** `addQueryParam` leaves a present key alone unless `overwrite` is set;
      otherwise afterwards `get(key)` is the value ('' when absent), exactly
      one pair has the key and the other pairs are as they were. */
  lemma AddQueryParamSpec(u: Url, key: string, value: Option<string>, overwrite: bool, env: Env)
    requires key != ""
    ensures var r := ApplyAction(u, AddQueryParam(Some(key), value, overwrite), env);
      && (Has(u.params, key) && !overwrite ==> r == u)
      && (!Has(u.params, key) || overwrite ==>
           && Get(r.params, key) == Some(value.GetOr(""))
           && Count(r.params, key) == 1
           && Delete(r.params, key) == Delete(u.params, key)
           && Reserialized(r, env.formEncode)
           && r.origin == u.origin && r.host == u.host && r.pathname == u.pathname && r.hash == u.hash)
      && (!Has(u.params, key) ==> r.params == u.params + [(key, value.GetOr(""))])
  {
    SetGet(u.params, key, value.GetOr(""));
    SetKeepsOthers(u.params, key, value.GetOr(""));
    if !Has(u.params, key) {
      SetAppends(u.params, key, value.GetOr(""));
    }
  }

  /** Applying `addQueryParam` twice is applying it once. */
  lemma AddQueryParamIdempotent(u: Url, a: Action, env: Env)
    requires a.AddQueryParam?
    ensures ApplyAction(ApplyAction(u, a, env), a, env) == ApplyAction(u, a, env)
  {
    if Truthy(a.key) {
      var k, v := a.key.value, a.value.GetOr("");
      SetGet(u.params, k, v);
      GetSpec(Set(u.params, k, v), k);
      SetIdempotent(u.params, k, v);
    }
  }

  /** A parameter action without a key, a string action without a value and
      an action of unknown type leave the URL as it is. */
  lemma NoOpActions(u: Url, a: Action, env: Env)
    requires
      || ((a.RemoveQueryParam? || a.AddQueryParam?) && !Truthy(a.key))
      || ((a.RemoveSubstring? || a.AddSuffix? || a.AddPrefix?) && !Truthy(a.value))
      || a.Unknown?
    ensures ApplyAction(u, a, env) == u
  {
  }

  /** The string `removeSubstring`, `addSuffix` or `addPrefix` rebuilds. */
  function Rebuilt(u: Url, a: Action, env: Env): string
    requires a.RemoveSubstring? || a.AddSuffix? || a.AddPrefix?
    requires Truthy(a.value)
  {
    match a
    case RemoveSubstring(value) => RemoveFirst(Href(u), value.value)
    case AddSuffix(value) => Suffixed(u, value.value)
    case AddPrefix(value) => value.value + env.encodeURIComponent(Href(u))
  }

  /** A rebuilt string that does not parse leaves the URL as it was before
      the step; one that parses replaces it. */
  lemma ReparseFallback(u: Url, a: Action, env: Env)
    requires a.RemoveSubstring? || a.AddSuffix? || a.AddPrefix?
    requires Truthy(a.value)
    ensures env.parse(Rebuilt(u, a, env), None).None? ==> ApplyAction(u, a, env) == u
    ensures env.parse(Rebuilt(u, a, env), None).Some? ==>
      ApplyAction(u, a, env) == env.parse(Rebuilt(u, a, env), None).value
  {
  }

  /** `removeSubstring` re-parses the serialized URL with its first
      occurrence of the value cut out (and only that one), which is
      `|value|` characters shorter; when that does not parse, the URL stays. */
  lemma RemoveSubstringSpec(u: Url, value: string, i: int, env: Env)
    requires value != ""
    requires FirstOccurrence(Href(u), value, i)
    ensures var cut := Href(u)[..i] + Href(u)[i + |value|..];
      && |cut| == |Href(u)| - |value|
      && ApplyAction(u, RemoveSubstring(Some(value)), env) ==
         match env.parse(cut, None)
         case Some(v) => v
         case None => u
  {
  }

  /** Without an occurrence the serialized URL is re-parsed as it is. */
  lemma RemoveSubstringAbsent(u: Url, value: string, env: Env)
    requires value != ""
    requires !Contains(Href(u), value)
    ensures ApplyAction(u, RemoveSubstring(Some(value)), env) == Reparse(u, Href(u), env)
  {
  }

  /** `addSuffix` with a suffix that is not a query extends the path,
      before search and hash. With a query suffix only the search changes. */
  lemma SuffixedSpec(u: Url, v: string)
    ensures !LooksLikeQuery(v) ==> Suffixed(u, v) == Href(u.(pathname := u.pathname + v))
    ensures LooksLikeQuery(v) ==> Suffixed(u, v) == Href(u.(search := JoinQuery(u.search, v)))
  {
  }

  /** The query part of a search string (empty, or what follows `?`). */
  function QueryText(search: string): string {
    if search == "" then "" else search[1..]
  }

  /** The intended join: the new search starts with `?` and holds the old
      pairs followed by the suffix's pairs, nothing merged or lost. */
  lemma JoinQueryAppendsPairs(search: string, v: string, dec: string -> string)
    requires search == "" || search[0] == '?'
    ensures var j := JoinQuery(search, v);
      j != "" && j[0] == '?' && Parse(j[1..], dec) == Parse(QueryText(search), dec) + Parse(StripSeparator(v), dec)
  {
    var j := JoinQuery(search, v);
    var s := StripSeparator(v);
    if search == "" {
      assert j == "?" + s;
      assert j[1..] == s;
      ParseEmpty(dec);
    } else {
      assert j == search + "&" + s;
      assert j[1..] == search[1..] + "&" + s;
      ParseAppend(search[1..], s, dec);
    }
  }

  /** The source's join differs from the intended one exactly when the
      suffix already starts with the separator that is needed; it then
      loses that separator. */
  lemma {:induction false} JoinQueryAsWrittenDropsSeparator(search: string, v: string)
    ensures var drops := |v| > 0 && ((|search| > 0 && v[0] == '&') || (|search| == 0 && v[0] == '?'));
      && (drops ==> JoinQueryAsWritten(search, v) == search + v[1..]
                    && |JoinQueryAsWritten(search, v)| + 1 == |JoinQuery(search, v)|)
      && (!drops ==> JoinQueryAsWritten(search, v) == JoinQuery(search, v))
  {
  }

  /** `addSuffix('&b=2')` on a URL whose search is `?a=1`: the source's
      join yields `?a=1b=2`, one pair; the intended join keeps two. */
  lemma AsWrittenMergesPairs(dec: string -> string)
    ensures JoinQueryAsWritten("?a=1", "&b=2") == "?a=1b=2"
    ensures |Parse(JoinQueryAsWritten("?a=1", "&b=2")[1..], dec)| == 1
    ensures |Parse(JoinQuery("?a=1", "&b=2")[1..], dec)| == 2
  {
    assert StripSeparator("&b=2") == "b=2";
    assert JoinQueryAsWritten("?a=1", "&b=2")[1..] == "a=1b=2";
    SplitWithout("a=1b=2", '&');
    assert JoinQuery("?a=1", "&b=2")[1..] == "a=1" + "&" + "b=2";
    ParseAppend("a=1", "b=2", dec);
    SplitWithout("a=1", '&');
    SplitWithout("b=2", '&');
  }

  /** `addSuffix('?b=2')` on a URL without a search: the source's join
      yields `b=2`, no `?`, so the text lands in the path. */
  lemma AsWrittenLosesQueryMark()
    ensures JoinQueryAsWritten("", "?b=2") == "b=2"
    ensures JoinQuery("", "?b=2") == "?b=2"
  {
    assert StripSeparator("?b=2") == "b=2";
  }

  /** No `addSuffix` value starts with `?` or `&`. */
  predicate NoLeadingSeparatorSuffix(acts: seq<Action>) {
    forall k :: 0 <= k < |acts| ==>
      acts[k].AddSuffix? && Truthy(acts[k].value) ==> !StartsWithSeparator(acts[k].value.value)
  }

  /** The source's `transformUrlString` and the corrected one agree on every
      link as long as no `addSuffix` value leads with a separator. */
  lemma {:induction false} AsWrittenAgreesWithoutLeadingSeparator(u: Url, acts: seq<Action>, env: Env)
    requires NoLeadingSeparatorSuffix(acts)
    ensures ApplyActionsAsWritten(u, acts, env) == ApplyActions(u, acts, env)
    decreases |acts|
  {
    if acts != [] {
      var a := acts[0];
      if a.AddSuffix? && Truthy(a.value) {
        JoinQueryAsWrittenDropsSeparator(u.search, a.value.value);
      }
      assert NoLeadingSeparatorSuffix(acts[1..]) by {
        forall k | 0 <= k < |acts[1..]|
          ensures acts[1..][k].AddSuffix? && Truthy(acts[1..][k].value) ==> !StartsWithSeparator(acts[1..][k].value.value)
        {
          assert acts[1..][k] == acts[k + 1];
        }
      }
      AsWrittenAgreesWithoutLeadingSeparator(ApplyAction(u, a, env), acts[1..], env);
    }
  }

  /** The source's `transformUrlString` returns what the corrected one
      returns, for every link, when no `addSuffix` value leads with a
      separator. */
  lemma TransformAgreesWithoutLeadingSeparator(href: string, acts: seq<Action>, env: Env)
    requires NoLeadingSeparatorSuffix(acts)
    ensures TransformUrlAsWritten(href, acts, env) == TransformUrl(href, acts, env)
  {
    if env.parse(href, Some(env.location.href)).Some? {
      AsWrittenAgreesWithoutLeadingSeparator(env.parse(href, Some(env.location.href)).value, acts, env);
    }
  }

  /** The shipped configuration has no `addSuffix` at all. */
  lemma ShippedConfigAgreesAsWritten(href: string, env: Env)
    ensures TransformUrlAsWritten(href, CONFIG.actions, env) == TransformUrl(href, CONFIG.actions, env)
  {
    TransformAgreesWithoutLeadingSeparator(href, CONFIG.actions, env);
  }

  /** The whole transform as the source writes it: `addSuffix('&b=2')` on a
      URL whose search is `?a=1` hands the parser `...?a=1b=2...`, while the
      corrected join hands it `...?a=1&b=2...`. */
  lemma AsWrittenTransformMergesPairs(href: string, env: Env)
    requires env.parse(href, Some(env.location.href)).Some?
    requires env.parse(href, Some(env.location.href)).value.search == "?a=1"
    ensures var u := env.parse(href, Some(env.location.href)).value;
      && TransformUrlAsWritten(href, [AddSuffix(Some("&b=2"))], env) ==
           Href(Reparse(u, u.origin + u.pathname + "?a=1b=2" + u.hash, env))
      && TransformUrl(href, [AddSuffix(Some("&b=2"))], env) ==
           Href(Reparse(u, u.origin + u.pathname + "?a=1&b=2" + u.hash, env))
  {
    var u := env.parse(href, Some(env.location.href)).value;
    assert JoinQueryAsWritten("?a=1", "&b=2") == "?a=1b=2";
    assert JoinQuery("?a=1", "&b=2") == "?a=1&b=2";
    assert LooksLikeQuery("&b=2");
    assert [AddSuffix(Some("&b=2"))][1..] == [];
  }

  /** Running two action lists in a row is running their concatenation. */
  lemma {:induction false} ApplyActionsAppend(u: Url, a: seq<Action>, b: seq<Action>, env: Env)
    ensures ApplyActions(u, a + b, env) == ApplyActions(ApplyActions(u, a, env), b, env)
    decreases |a|
  {
    if a == [] {
      assert a + b == b;
    } else {
      assert (a + b)[0] == a[0];
      assert (a + b)[1..] == a[1..] + b;
      ApplyActionsAppend(ApplyAction(u, a[0], env), a[1..], b, env);
    }
  }

  /** A link that does not parse is returned unchanged. */
  lemma TransformUnparsable(href: string, acts: seq<Action>, env: Env)
    requires env.parse(href, Some(env.location.href)).None?
    ensures TransformUrl(href, acts, env) == href
  {
  }

  /** A URL whose last parameter is removed is recomposed without a
      trailing `?`. */
  lemma NoTrailingQueryMark(u: Url, key: string, env: Env)
    requires key != ""
    requires forall k :: 0 <= k < |u.params| ==> u.params[k].0 == key
    ensures Href(ApplyAction(u, RemoveQueryParam(Some(key), None), env)) == u.origin + u.pathname + u.hash
  {
    DeleteSpec(u.params, key);
  }
}
