/** The application/x-www-form-urlencoded serializer and parser of sections
    5.1 and 5.2 of the WHATWG URL Standard, over name-value lists. The byte
    level (percent-encoding, `+` for space, UTF-8) is a parameter: `enc`
    encodes one name or value, `dec` decodes one. */
module FormUrlencoded {
  import opened Wrappers
  import opened Strings

  /** A URLSearchParams list: ordered name-value pairs, duplicates allowed. */
  type Params = seq<(string, string)>

  function SerializePair(p: (string, string), enc: string -> string): string {
    enc(p.0) + "=" + enc(p.1)
  }

  /** Section 5.2 of the WHATWG URL Standard: each pair as `name=value`, pairs joined by `&`. */
  function Serialize(q: Params, enc: string -> string): (r: string)
    ensures r == "" <==> q == []
  {
    if q == [] then ""
    else if |q| == 1 then SerializePair(q[0], enc)
    else SerializePair(q[0], enc) + "&" + Serialize(q[1..], enc)
  }

  /** Section 5.1 of the WHATWG URL Standard, for one non-empty sequence: the name runs up to the first
      `=`, the value after it; without `=` the value is empty. */
  function ParsePair(piece: string, dec: string -> string): (string, string) {
    match IndexOf(piece, "=")
    case Some(i) => (dec(piece[..i]), dec(piece[i + 1..]))
    case None => (dec(piece), "")
  }

  /** Section 5.1 of the WHATWG URL Standard: empty sequences between `&`s are skipped. */
  function ParsePieces(pieces: seq<string>, dec: string -> string): Params {
    if pieces == [] then []
    else (if pieces[0] == "" then [] else [ParsePair(pieces[0], dec)]) + ParsePieces(pieces[1..], dec)
  }

  function Parse(s: string, dec: string -> string): Params {
    ParsePieces(SplitOn(s, '&'), dec)
  }

  /** Names and values of `q` survive encoding and decoding, and their
      encodings contain no `&`; names contain no `=` once encoded. */
  ghost predicate Encodes(enc: string -> string, dec: string -> string, q: Params) {
    forall k :: 0 <= k < |q| ==>
      && dec(enc(q[k].0)) == q[k].0 && dec(enc(q[k].1)) == q[k].1
      && '&' !in enc(q[k].0) && '&' !in enc(q[k].1) && '=' !in enc(q[k].0)
  }

  lemma {:induction false} ParsePiecesAppend(a: seq<string>, b: seq<string>, dec: string -> string)
    ensures ParsePieces(a + b, dec) == ParsePieces(a, dec) + ParsePieces(b, dec)
  {
    if a == [] {
      assert a + b == b;
    } else {
      assert (a + b)[0] == a[0];
      assert (a + b)[1..] == a[1..] + b;
      ParsePiecesAppend(a[1..], b, dec);
    }
  }

  /** Joining two query strings with `&` concatenates their pairs: nothing
      of either side is lost or merged. */
  lemma {:induction false} ParseAppend(a: string, b: string, dec: string -> string)
    ensures Parse(a + "&" + b, dec) == Parse(a, dec) + Parse(b, dec)
  {
    SplitAppend(a, '&', b);
    ParsePiecesAppend(SplitOn(a, '&'), SplitOn(b, '&'), dec);
  }

  /** The empty query string holds no pairs. */
  lemma ParseEmpty(dec: string -> string)
    ensures Parse("", dec) == []
  {
    assert SplitOn("", '&') == [""];
  }

  lemma {:induction false} ParseSerializedPair(p: (string, string), enc: string -> string, dec: string -> string)
    requires Encodes(enc, dec, [p])
    ensures Parse(SerializePair(p, enc), dec) == [p]
  {
    assert [p][0] == p;
    var x, y := enc(p.0), enc(p.1);
    assert '&' !in x && '&' !in y && '=' !in x;
    var piece := SerializePair(p, enc);
    assert piece == x + "=" + y;
    assert '&' !in piece;
    SplitWithout(piece, '&');
    assert OccursAt(piece, "=", |x|);
    var i := IndexOf(piece, "=");
    assert i.Some?;
    forall j | 0 <= j < |x| ensures !OccursAt(piece, "=", j) {
      assert piece[j..j + 1] == [x[j]];
    }
    assert i.value == |x|;
    assert piece[..|x|] == x;
    assert piece[|x| + 1..] == y;
    assert ParsePair(piece, dec) == p;
    var single: seq<string> := [piece];
    assert single[1..] == [];
    assert ParsePieces(single, dec) == [p];
  }

  /** Parsing undoes serializing (the URLSearchParams round trip). */
  lemma {:induction false} ParseSerialize(q: Params, enc: string -> string, dec: string -> string)
    requires Encodes(enc, dec, q)
    ensures Parse(Serialize(q, enc), dec) == q
  {
    if q == [] {
      ParseEmpty(dec);
    } else {
      assert Encodes(enc, dec, [q[0]]);
      ParseSerializedPair(q[0], enc, dec);
      if |q| > 1 {
        assert Encodes(enc, dec, q[1..]);
        ParseSerialize(q[1..], enc, dec);
        ParseAppend(SerializePair(q[0], enc), Serialize(q[1..], enc), dec);
        assert [q[0]] + q[1..] == q;
      }
    }
  }
}
