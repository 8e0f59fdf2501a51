/** A pipeline made only of `removeQueryParam` steps is idempotent: running
    it on its own output changes nothing. `sanitizeAnchor` writes the
    attribute only on change and the mutation observer re-runs it on every
    such write, so for these configurations (the shipped one among them) the
    second run writes nothing and the loop stops. */
module RemovalIdempotence {
  import opened Wrappers
  import opened SearchParams
  import opened Urls
  import opened LinkRewriter
  import opened ActionProperties

  predicate RemovalsOnly(acts: seq<Action>) {
    forall k :: 0 <= k < |acts| ==> acts[k].RemoveQueryParam?
  }

  /** Removal steps never bring a key back, leave `get` of every key that
      survives as it was, and once a step has fired the search string agrees
      with the params. */
  lemma {:induction false} RemovalsPreserve(s: Url, acts: seq<Action>, env: Env)
    requires RemovalsOnly(acts)
    ensures var v := ApplyActions(s, acts, env);
      && (forall k :: !Has(s.params, k) ==> !Has(v.params, k))
      && (forall k :: Has(v.params, k) ==> Get(v.params, k) == Get(s.params, k))
      && (Reserialized(s, env.formEncode) ==> Reserialized(v, env.formEncode))
      && (v == s || Reserialized(v, env.formEncode))
    decreases |acts|
  {
    if acts != [] {
      var a := acts[0];
      var s1 := ApplyAction(s, a, env);
      assert RemovalsOnly(acts[1..]) by {
        forall k | 0 <= k < |acts[1..]| ensures acts[1..][k].RemoveQueryParam? {
          assert acts[1..][k] == acts[k + 1];
        }
      }
      RemovalsPreserve(s1, acts[1..], env);
      if Truthy(a.key) && RemoveApplies(s.params, a.key.value, a.ifValueIs) {
        var g := a.key.value;
        DeleteSpec(s.params, g);
        forall k | k != g
          ensures Has(s1.params, k) == Has(s.params, k) && Get(s1.params, k) == Get(s.params, k)
        {
          DeleteOther(s.params, g, k);
        }
      }
    }
  }

  /** Every removal step of the list is a no-op on the list's result. */
  lemma RemovalSettled(u: Url, acts: seq<Action>, j: int, env: Env)
    requires RemovalsOnly(acts) && 0 <= j < |acts|
    ensures ApplyAction(ApplyActions(u, acts, env), acts[j], env) == ApplyActions(u, acts, env)
  {
    var a := acts[j];
    var before := ApplyActions(u, acts[..j], env);
    var s1 := ApplyAction(before, a, env);
    var rest := acts[j + 1..];
    assert acts == acts[..j] + ([a] + rest);
    ApplyActionsAppend(u, acts[..j], [a] + rest, env);
    assert ([a] + rest)[1..] == rest;
    var f := ApplyActions(s1, rest, env);
    assert f == ApplyActions(u, acts, env);
    assert RemovalsOnly(rest) by {
      forall k | 0 <= k < |rest| ensures rest[k].RemoveQueryParam? {
        assert rest[k] == acts[j + 1 + k];
      }
    }
    RemovalsPreserve(s1, rest, env);
    if Truthy(a.key) {
      var g := a.key.value;
      GetSpec(f.params, g);
      if RemoveApplies(before.params, g, a.ifValueIs) {
        DeleteSpec(before.params, g);
        assert !Has(f.params, g);
        DeleteAbsent(f.params, g);
      } else {
        GetSpec(before.params, g);
      }
    }
  }

  lemma {:induction false} AllNoOps(f: Url, acts: seq<Action>, env: Env)
    requires forall k :: 0 <= k < |acts| ==> ApplyAction(f, acts[k], env) == f
    ensures ApplyActions(f, acts, env) == f
    decreases |acts|
  {
    if acts != [] {
      assert forall k :: 0 <= k < |acts[1..]| ==> acts[1..][k] == acts[k + 1];
      AllNoOps(f, acts[1..], env);
    }
  }

  /** A removal-only pipeline applied to its own result changes nothing. */
  lemma RemovalsIdempotent(u: Url, acts: seq<Action>, env: Env)
    requires RemovalsOnly(acts)
    ensures ApplyActions(ApplyActions(u, acts, env), acts, env) == ApplyActions(u, acts, env)
  {
    var f := ApplyActions(u, acts, env);
    forall k | 0 <= k < |acts| ensures ApplyAction(f, acts[k], env) == f {
      RemovalSettled(u, acts, k, env);
    }
    AllNoOps(f, acts, env);
  }

  /** The parser reads the recomposed result back as the same URL. */
  ghost predicate ReparsesResult(href: string, acts: seq<Action>, env: Env) {
    match env.parse(href, Some(env.location.href))
    case None => true
    case Some(u) =>
      var f := ApplyActions(u, acts, env);
      env.parse(Href(f), Some(env.location.href)) == Some(f)
  }

  /** `transformUrlString` with removal-only actions is idempotent whenever
      the parser reads its output back as the URL it came from. */
  lemma TransformIdempotent(href: string, acts: seq<Action>, env: Env)
    requires RemovalsOnly(acts)
    requires ReparsesResult(href, acts, env)
    ensures TransformUrl(TransformUrl(href, acts, env), acts, env) == TransformUrl(href, acts, env)
  {
    match env.parse(href, Some(env.location.href))
    case None =>
    case Some(u) =>
      RemovalsIdempotent(u, acts, env);
  }

  /** The shipped configuration removes only. */
  lemma ShippedConfigRemovesOnly()
    ensures RemovalsOnly(CONFIG.actions)
  {
  }

  /** Sanitizing an anchor a second time, as the mutation observer does
      after the first write, writes nothing more. */
  method SanitizeTwice(a: Anchor, cfg: Config, env: Env)
    requires RemovalsOnly(cfg.actions)
    requires a.href.Some? ==> ReparsesResult(a.href.value, cfg.actions, env)
    modifies a
    ensures a.writes <= old(a.writes) + 1
  {
    if a.href.Some? {
      TransformIdempotent(a.href.value, cfg.actions, env);
    }
    a.Sanitize(cfg, env);
    a.Sanitize(cfg, env);
  }
}
