/** An abstract WHATWG URL record: the parts the link rewriter reads, plus
    the search-params list. Parsing is not modelled here; module
    LinkRewriter receives the parser as a parameter. */
module Urls {
  import opened FormUrlencoded

  /** `search` is what the `search` getter returns ("" or "?" + query);
      `params` is the `searchParams` list; `hash` is "" or "#" + fragment. */
  datatype Url = Url(
    origin: string,
    host: string,
    pathname: string,
    search: string,
    params: Params,
    hash: string)

  /** The search string a params list serializes to: no "?" when empty. */
  function SearchOf(q: Params, enc: string -> string): (r: string)
    ensures r == "" <==> q == []
    ensures r != "" ==> r[0] == '?' && r[1..] == Serialize(q, enc)
  {
    if q == [] then "" else "?" + Serialize(q, enc)
  }

  /** The URLSearchParams "update steps" after `delete` or `set`: the
      list becomes `q` and the URL's query is reserialized from it. */
  function UpdateParams(u: Url, q: Params, enc: string -> string): Url {
    u.(params := q, search := SearchOf(q, enc))
  }

  /** The search string agrees with the params list. */
  ghost predicate Reserialized(u: Url, enc: string -> string) {
    u.search == SearchOf(u.params, enc)
  }

  /** The serialized form `origin + pathname + search + hash`. */
  function Href(u: Url): string {
    u.origin + u.pathname + u.search + u.hash
  }

  /** Once updated, the URL's query parses back to exactly its params. */
  lemma UpdateParamsRoundTrip(u: Url, q: Params, enc: string -> string, dec: string -> string)
    requires Encodes(enc, dec, q)
    ensures Reserialized(UpdateParams(u, q, enc), enc)
    ensures var s := UpdateParams(u, q, enc).search;
            (s == "" && q == []) || (s[0] == '?' && Parse(s[1..], dec) == q)
  {
    if q != [] {
      ParseSerialize(q, enc, dec);
    }
  }

  /** Updating a reserialized URL with its own params changes nothing. */
  lemma UpdateSameParams(u: Url, enc: string -> string)
    requires Reserialized(u, enc)
    ensures UpdateParams(u, u.params, enc) == u
  {
  }
}
