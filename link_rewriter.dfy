/** The link-rewriting engine: whether the page and a link qualify, the
    ordered pipeline of URL actions, and the conditional write-back of an
    anchor's `href`. The browser's URL parser, `encodeURIComponent`, the
    form encoder and `RegExp.prototype.test` are parameters (`Env`). */
module LinkRewriter {
  import opened Wrappers
  import opened Strings
  import opened FormUrlencoded
  import opened SearchParams
  import opened Urls

  /** `location.href` and `location.host` of the current page. */
  datatype Location = Location(href: string, host: string)

  /** The browser facilities the script calls. `parse(input, base)` is
      `new URL(input, base)`, `None` when it throws; `regexTest(pattern, s)`
      is `pattern.test(s)`. */
  datatype Env = Env(
    location: Location,
    parse: (string, Option<string>) -> Option<Url>,
    encodeURIComponent: string -> string,
    formEncode: string -> string,
    regexTest: (string, string) -> bool)

  /** A `baseMatch` entry: a RegExp, or a string the page URL must contain. */
  datatype MatchRule = Pattern(source: string) | Text(text: string)

  /** One configured action. A field the configuration leaves out is `None`;
      a `type` the engine does not know is `Unknown`. */
  datatype Action =
    | RemoveQueryParam(key: Option<string>, ifValueIs: Option<string>)
    | AddQueryParam(key: Option<string>, value: Option<string>, overwrite: bool)
    | RemoveSubstring(value: Option<string>)
    | AddSuffix(value: Option<string>)
    | AddPrefix(value: Option<string>)
    | Unknown(typeName: string)

  /** `hrefIncludesAny`/`hrefExcludesAny` are `None` when not an array. */
  datatype OutgoingFilter =
    OutgoingFilter(onlyExternal: bool, hrefIncludesAny: Option<seq<string>>, hrefExcludesAny: Option<seq<string>>)

  datatype Config = Config(baseMatch: seq<MatchRule>, outgoingFilter: OutgoingFilter, actions: seq<Action>)

  /** The configuration the script ships with. */
  const CONFIG: Config := Config(
    [Pattern("^https:\\/\\/chatgpt\\.com\\/")],
    OutgoingFilter(true, Some([]), Some([])),
    [RemoveQueryParam(Some("utm_source"), Some("chatgpt.com"))])

  // ---------------------------------------------------------------------
  // Qualification
  // ---------------------------------------------------------------------

  predicate RuleMatches(rule: MatchRule, env: Env) {
    match rule
    case Pattern(p) => env.regexTest(p, env.location.href)
    case Text(t) => Includes(env.location.href, t)
  }

  /** `baseMatch.every(...)`. */
  function PageMatches(rules: seq<MatchRule>, env: Env): bool {
    rules == [] || (RuleMatches(rules[0], env) && PageMatches(rules[1..], env))
  }

  /** The page qualifies exactly when every RegExp rule accepts its URL and
      every string rule is a substring of it. */
  lemma {:induction false} PageMatchesEvery(rules: seq<MatchRule>, env: Env)
    ensures PageMatches(rules, env) <==>
      forall k :: 0 <= k < |rules| ==>
        match rules[k]
        case Pattern(p) => env.regexTest(p, env.location.href)
        case Text(t) => Contains(env.location.href, t)
  {
    if rules != [] {
      PageMatchesEvery(rules[1..], env);
      assert forall k :: 1 <= k < |rules| ==> rules[k] == rules[1..][k - 1];
    }
  }

  /** `isExternal`: the link resolves against the page to a different host;
      a link that does not parse is not external. */
  predicate IsExternal(u: string, env: Env) {
    match env.parse(u, Some(env.location.href))
    case Some(url) => url.host != env.location.host
    case None => false
  }

  /** `subs.some(s => href.includes(s))`. */
  function AnyIncluded(href: string, subs: seq<string>): bool {
    subs != [] && (Includes(href, subs[0]) || AnyIncluded(href, subs[1..]))
  }

  lemma {:induction false} AnyIncludedSpec(href: string, subs: seq<string>)
    ensures AnyIncluded(href, subs) <==> exists k :: 0 <= k < |subs| && Contains(href, subs[k])
  {
    if subs != [] {
      AnyIncludedSpec(href, subs[1..]);
      if exists k :: 0 <= k < |subs| && Contains(href, subs[k]) {
        var k :| 0 <= k < |subs| && Contains(href, subs[k]);
        if k > 0 {
          assert subs[1..][k - 1] == subs[k];
        }
      }
      if exists k :: 0 <= k < |subs[1..]| && Contains(href, subs[1..][k]) {
        var k :| 0 <= k < |subs[1..]| && Contains(href, subs[1..][k]);
        assert subs[k + 1] == subs[1..][k];
      }
    }
  }

  function IncludesAny(href: string, arr: Option<seq<string>>): bool {
    match arr
    case None => true
    case Some(subs) => subs == [] || AnyIncluded(href, subs)
  }

  function ExcludesAny(href: string, arr: Option<seq<string>>): bool {
    match arr
    case None => true
    case Some(subs) => subs == [] || !AnyIncluded(href, subs)
  }

  /** `includesAny` holds for an empty list and otherwise exactly when some
      entry is a substring of the link. */
  lemma IncludesAnySpec(href: string, subs: seq<string>)
    ensures IncludesAny(href, Some(subs)) <==>
      subs == [] || exists k :: 0 <= k < |subs| && Contains(href, subs[k])
  {
    AnyIncludedSpec(href, subs);
  }

  /** `excludesAny` holds for an empty list and otherwise exactly when no
      entry is a substring of the link. */
  lemma ExcludesAnySpec(href: string, subs: seq<string>)
    ensures ExcludesAny(href, Some(subs)) <==>
      subs == [] || forall k :: 0 <= k < |subs| ==> !Contains(href, subs[k])
  {
    AnyIncludedSpec(href, subs);
  }

  /** `shouldProcessHref`; `None` is a missing attribute or argument. */
  function ShouldProcessHref(href: Option<string>, f: OutgoingFilter, env: Env): (r: bool)
    ensures href.None? || href.value == "" ==> !r
    ensures r && f.onlyExternal ==>
      match env.parse(href.value, Some(env.location.href))
      case None => false
      case Some(url) => url.host != env.location.host
  {
    if href.None? || href.value == "" then false
    else
      var isExtOk := if f.onlyExternal then IsExternal(href.value, env) else true;
      isExtOk && IncludesAny(href.value, f.hrefIncludesAny) && ExcludesAny(href.value, f.hrefExcludesAny)
  }

  /** With both lists given, a link qualifies exactly when it is non-empty,
      external if that is asked for, contains an included entry (if any
      are listed) and contains no excluded entry. */
  lemma ShouldProcessHrefSpec(href: string, onlyExternal: bool, inc: seq<string>, exc: seq<string>, env: Env)
    ensures ShouldProcessHref(Some(href), OutgoingFilter(onlyExternal, Some(inc), Some(exc)), env) <==>
      && href != ""
      && (onlyExternal ==> IsExternal(href, env))
      && (inc == [] || exists k :: 0 <= k < |inc| && Contains(href, inc[k]))
      && (forall k :: 0 <= k < |exc| ==> !Contains(href, exc[k]))
  {
    IncludesAnySpec(href, inc);
    ExcludesAnySpec(href, exc);
  }

  // ---------------------------------------------------------------------
  // Actions
  // ---------------------------------------------------------------------

  /** A configuration field JavaScript treats as true: present and non-empty. */
  predicate Truthy(s: Option<string>) {
    s.Some? && s.value != ""
  }

  /** `try { u = new URL(s) } catch {}`: keep `u` when `s` does not parse. */
  function Reparse(u: Url, s: string, env: Env): Url {
    match env.parse(s, None)
    case Some(v) => v
    case None => u
  }

  /** `removeQueryParam` deletes when no value is given or when `get(key)`
      equals it. */
  predicate RemoveApplies(q: Params, key: string, ifValueIs: Option<string>) {
    ifValueIs.None? || Get(q, key) == Some(ifValueIs.value)
  }

  predicate StartsWithSeparator(v: string) {
    |v| > 0 && (v[0] == '?' || v[0] == '&')
  }

  /** A suffix that starts with `?` or `&` or contains `=` is a query. */
  predicate LooksLikeQuery(v: string) {
    StartsWithSeparator(v) || '=' in v
  }

  /** `v.replace(/^[?&]/, '')`. */
  function StripSeparator(v: string): (r: string)
    ensures StartsWithSeparator(v) ==> [v[0]] + r == v
    ensures !StartsWithSeparator(v) ==> r == v
  {
    if StartsWithSeparator(v) then v[1..] else v
  }

  /** The search part `u.search + sep + v.replace(/^[?&]/, '')` exactly as
      the source builds it: `sep` is left empty when the suffix already
      starts with the separator that would be needed, although that
      separator is stripped all the same. */
  function JoinQueryAsWritten(search: string, v: string): string {
    var sep :=
      if |search| > 0 then (if |v| > 0 && v[0] == '&' then "" else "&")
      else (if |v| > 0 && v[0] == '?' then "" else "?");
    search + sep + StripSeparator(v)
  }

  /** The search part as intended: one `?` when there is no search yet, one
      `&` otherwise, then the suffix without its own leading separator. */
  function JoinQuery(search: string, v: string): string {
    search + (if |search| > 0 then "&" else "?") + StripSeparator(v)
  }

  /** The string `addSuffix` hands to the parser. */
  function Suffixed(u: Url, v: string): string {
    if LooksLikeQuery(v) then u.origin + u.pathname + JoinQuery(u.search, v) + u.hash
    else u.origin + u.pathname + v + u.search + u.hash
  }

  /** One step of the pipeline, with the corrected `addSuffix` join (the
      source's is `ApplyActionAsWritten`). */
  function ApplyAction(u: Url, a: Action, env: Env): Url {
    match a
    case RemoveQueryParam(key, ifValueIs) =>
      if Truthy(key) && RemoveApplies(u.params, key.value, ifValueIs)
      then UpdateParams(u, Delete(u.params, key.value), env.formEncode)
      else u
    case AddQueryParam(key, value, overwrite) =>
      if Truthy(key) && (!Has(u.params, key.value) || overwrite)
      then UpdateParams(u, Set(u.params, key.value, value.GetOr("")), env.formEncode)
      else u
    case RemoveSubstring(value) =>
      if Truthy(value) then Reparse(u, RemoveFirst(Href(u), value.value), env) else u
    case AddSuffix(value) =>
      if Truthy(value) then Reparse(u, Suffixed(u, value.value), env) else u
    case AddPrefix(value) =>
      if Truthy(value) then Reparse(u, value.value + env.encodeURIComponent(Href(u)), env) else u
    case Unknown(_) => u
  }

  /** The actions in list order, each consuming the previous result. */
  function ApplyActions(u: Url, acts: seq<Action>, env: Env): Url
    decreases |acts|
  {
    if acts == [] then u else ApplyActions(ApplyAction(u, acts[0], env), acts[1..], env)
  }

  /** `transformUrlString` with the corrected `addSuffix` join (the source's
      is `TransformUrlAsWritten`): a link that does not parse comes back as
      it was; otherwise the pipeline's result, recomposed without a trailing
      `?`. */
  function TransformUrl(href: string, acts: seq<Action>, env: Env): string {
    match env.parse(href, Some(env.location.href))
    case None => href
    case Some(u) => Href(ApplyActions(u, acts, env))
  }

  /** The string `addSuffix` hands to the parser with the source's own
      separator logic (see `JoinQueryAsWritten`). */
  function SuffixedAsWritten(u: Url, v: string): string {
    if LooksLikeQuery(v) then u.origin + u.pathname + JoinQueryAsWritten(u.search, v) + u.hash
    else u.origin + u.pathname + v + u.search + u.hash
  }

  /** One pipeline step exactly as the source writes it: as `ApplyAction`,
      except that `addSuffix` uses the source's separator logic. */
  function ApplyActionAsWritten(u: Url, a: Action, env: Env): Url {
    match a
    case AddSuffix(value) =>
      if Truthy(value) then Reparse(u, SuffixedAsWritten(u, value.value), env) else u
    case _ => ApplyAction(u, a, env)
  }

  function ApplyActionsAsWritten(u: Url, acts: seq<Action>, env: Env): Url
    decreases |acts|
  {
    if acts == [] then u else ApplyActionsAsWritten(ApplyActionAsWritten(u, acts[0], env), acts[1..], env)
  }

  /** `transformUrlString` exactly as the source writes it. */
  function TransformUrlAsWritten(href: string, acts: seq<Action>, env: Env): string {
    match env.parse(href, Some(env.location.href))
    case None => href
    case Some(u) => Href(ApplyActionsAsWritten(u, acts, env))
  }

  /** `transformUrlString` in the source's imperative form, a loop over the
      actions that reassigns `u` and updates its search params, with the
      corrected `addSuffix` join (`TransformUrlAsWritten` is the source's
      join). */
  method TransformUrlString(href: string, actions: seq<Action>, env: Env) returns (r: string)
    ensures r == TransformUrl(href, actions, env)
    ensures env.parse(href, Some(env.location.href)).None? ==> r == href
  {
    var parsed := env.parse(href, Some(env.location.href));
    if parsed.None? {
      return href;
    }
    var u := parsed.value;
    var i := 0;
    while i < |actions|
      invariant 0 <= i <= |actions|
      invariant ApplyActions(u, actions[i..], env) == ApplyActions(parsed.value, actions, env)
    {
      match actions[i] {
        case RemoveQueryParam(key, ifValueIs) =>
          if Truthy(key) && (ifValueIs.None? || Get(u.params, key.value) == Some(ifValueIs.value)) {
            u := UpdateParams(u, Delete(u.params, key.value), env.formEncode);
          }
        case AddQueryParam(key, value, overwrite) =>
          if Truthy(key) {
            var has := Has(u.params, key.value);
            if !has || overwrite {
              u := UpdateParams(u, Set(u.params, key.value, value.GetOr("")), env.formEncode);
            }
          }
        case RemoveSubstring(value) =>
          if Truthy(value) {
            var asString := RemoveFirst(Href(u), value.value);
            var reparsed := env.parse(asString, None);
            if reparsed.Some? {
              u := reparsed.value;
            }
          }
        case AddSuffix(value) =>
          if Truthy(value) {
            var v := value.value;
            var newHref;
            if StartsWithSeparator(v) || '=' in v {
              newHref := u.origin + u.pathname + JoinQuery(u.search, v) + u.hash;
            } else {
              newHref := u.origin + u.pathname + v + u.search + u.hash;
            }
            var reparsed := env.parse(newHref, None);
            if reparsed.Some? {
              u := reparsed.value;
            }
          }
        case AddPrefix(value) =>
          if Truthy(value) {
            var newHref := value.value + env.encodeURIComponent(Href(u));
            var reparsed := env.parse(newHref, None);
            if reparsed.Some? {
              u := reparsed.value;
            }
          }
        case Unknown(_) =>
      }
      i := i + 1;
    }
    r := Href(u);
  }

  /** An `<a>` element as far as the script sees it: its `href` attribute
      and how many times the script has written it. */
  class Anchor {
    var href: Option<string>
    var writes: nat

    constructor (href: Option<string>)
      ensures this.href == href && writes == 0
    {
      this.href := href;
      writes := 0;
    }

    /** `sanitizeAnchor`: rewrite a qualifying link, writing the attribute
        only when the result differs from the original. */
    method Sanitize(cfg: Config, env: Env)
      modifies this
      ensures var original := old(href);
        if ShouldProcessHref(original, cfg.outgoingFilter, env)
           && TransformUrl(original.value, cfg.actions, env) != original.value
        then href == Some(TransformUrl(original.value, cfg.actions, env)) && writes == old(writes) + 1
        else href == original && writes == old(writes)
    {
      var original := href;
      if !ShouldProcessHref(original, cfg.outgoingFilter, env) {
        return;
      }
      var cleaned := TransformUrlString(original.value, cfg.actions, env);
      if cleaned != original.value {
        href := Some(cleaned);
        writes := writes + 1;
      }
    }
  }
}
