/**
 * Percent-encoding as Python's `urllib.parse.quote` does it with its default
 * `safe='/'` (sections 2.1 and 2.3 of RFC 3986: the unreserved characters and
 * `/` stay, every other UTF-8 byte becomes `%XX` with upper-case hex), its
 * inverse, and the query-string reading of `urlsplit` + `parse_qs` that the
 * code extractor relies on (without their percent-decoding).
 */
module UrlCodec {
  import opened Wrappers
  import opened Text

  type byte = x: int | 0 <= x < 256

  /** UTF-8 encoding of one Unicode scalar value (RFC 3629, section 3). */
  function Utf8Char(c: char): (r: seq<byte>)
    ensures 1 <= |r| <= 4
    ensures |r| == 1 <==> c as int < 0x80
    ensures |r| == 1 ==> r[0] == c as int
    ensures |r| > 1 ==> forall k :: 0 <= k < |r| ==> r[k] >= 0x80
  {
    var cp := c as int;
    if cp < 0x80 then [cp]
    else if cp < 0x800 then [0xC0 + cp / 64, 0x80 + cp % 64]
    else if cp < 0x10000 then [0xE0 + cp / 4096, 0x80 + (cp / 64) % 64, 0x80 + cp % 64]
    else [0xF0 + cp / 262144, 0x80 + (cp / 4096) % 64, 0x80 + (cp / 64) % 64, 0x80 + cp % 64]
  }

  /** `s.encode('utf-8')`. */
  function Utf8(s: string): (r: seq<byte>)
    ensures |r| >= |s|
  {
    if s == [] then [] else Utf8Char(s[0]) + Utf8(s[1..])
  }

  /** The bytes `quote` leaves alone: ALPHA, DIGIT, `_ . - ~` and the safe `/`. */
  predicate SafeByte(b: byte) {
    'A' as int <= b <= 'Z' as int || 'a' as int <= b <= 'z' as int || '0' as int <= b <= '9' as int
    || b == '_' as int || b == '.' as int || b == '-' as int || b == '~' as int || b == '/' as int
  }

  predicate SafeChar(c: char) {
    c as int < 256 && SafeByte(c as int)
  }

  /** A character that can appear in the output of `quote`. */
  predicate EncodedChar(c: char) {
    SafeChar(c) || c == '%'
  }

  function HexDigit(n: int): (c: char)
    requires 0 <= n < 16
    ensures SafeChar(c) && IsHex(c)
  {
    if n < 10 then ('0' as int + n) as char else ('A' as int + n - 10) as char
  }

  predicate IsHex(c: char) {
    '0' <= c <= '9' || 'A' <= c <= 'F' || 'a' <= c <= 'f'
  }

  function HexValue(c: char): (n: int)
    requires IsHex(c)
    ensures 0 <= n < 16
  {
    if '0' <= c <= '9' then c as int - '0' as int
    else if 'A' <= c <= 'F' then c as int - 'A' as int + 10
    else c as int - 'a' as int + 10
  }

  function QuoteByte(b: byte): string {
    if SafeByte(b) then [b as char] else ['%', HexDigit(b / 16), HexDigit(b % 16)]
  }

  function QuoteBytes(bs: seq<byte>): (r: string)
    ensures forall i :: 0 <= i < |r| ==> EncodedChar(r[i])
    ensures |r| >= |bs|
  {
    if bs == [] then [] else QuoteByte(bs[0]) + QuoteBytes(bs[1..])
  }

  /** `urllib.parse.quote(s)`: none of the URL delimiters survive in the result. */
  function Quote(s: string): (r: string)
    ensures forall i :: 0 <= i < |r| ==> EncodedChar(r[i])
    ensures ' ' !in r && ':' !in r && '?' !in r && '#' !in r && '&' !in r && '=' !in r
    ensures r == [] <==> s == []
  {
    QuoteBytes(Utf8(s))
  }

  /**
   * The inverse of `QuoteBytes` on the strings it produces: `%XX` becomes the
   * byte XX, a safe character stands for itself, anything else is rejected.
   */
  function Unquote(s: string): (r: Option<seq<byte>>)
    decreases |s|
  {
    if s == [] then Some([])
    else if s[0] == '%' then
      if |s| >= 3 && IsHex(s[1]) && IsHex(s[2]) then
        match Unquote(s[3..])
        case Some(rest) => Some([HexValue(s[1]) * 16 + HexValue(s[2])] + rest)
        case None => None
      else None
    else if SafeChar(s[0]) then
      match Unquote(s[1..])
      case Some(rest) => Some([s[0] as int] + rest)
      case None => None
    else None
  }

  lemma {:induction false} UnquoteQuoteBytes(bs: seq<byte>)
    ensures Unquote(QuoteBytes(bs)) == Some(bs)
  {
    if bs != [] {
      var b := bs[0];
      var rest := QuoteBytes(bs[1..]);
      UnquoteQuoteBytes(bs[1..]);
      var s := QuoteByte(b) + rest;
      assert QuoteBytes(bs) == s;
      if SafeByte(b) {
        assert s[0] == b as char && s[1..] == rest;
      } else {
        assert s[0] == '%' && s[1] == HexDigit(b / 16) && s[2] == HexDigit(b % 16);
        assert s[3..] == rest;
        assert HexValue(HexDigit(b / 16)) * 16 + HexValue(HexDigit(b % 16)) == b;
      }
      assert [b] + bs[1..] == bs;
    }
  }

  /** Decoding the quoted string gives back the UTF-8 bytes of the input. */
  lemma QuoteRoundTrip(s: string)
    ensures Unquote(Quote(s)) == Some(Utf8(s))
  {
    UnquoteQuoteBytes(Utf8(s));
  }

  /** A string made only of safe ASCII characters is left unchanged by `quote`. */
  lemma {:induction false} QuoteKeepsSafe(s: string)
    requires forall i :: 0 <= i < |s| ==> SafeChar(s[i])
    ensures Quote(s) == s
  {
    if s != [] {
      QuoteKeepsSafe(s[1..]);
      assert Utf8(s) == [s[0] as int] + Utf8(s[1..]);
      assert QuoteBytes(Utf8(s)) == QuoteByte(s[0] as int) + QuoteBytes(Utf8(s[1..]));
      assert [s[0]] + s[1..] == s;
    }
  }

  /** The query component as `urlsplit` finds it: after the first `?` of what precedes the first `#`. */
  function QueryOf(url: string): (q: string)
    ensures '#' !in q
  {
    var beforeFragment := TakeUntil(url, '#');
    var i := Find(beforeFragment, '?');
    if i == |beforeFragment| then "" else beforeFragment[i + 1..]
  }

  datatype Param = Param(name: string, value: string)

  /** One `name=value` field as `parse_qsl` keeps it: split at the first `=`, blank values dropped. */
  function FieldParam(field: string): (p: Option<Param>)
    ensures p.Some? ==> field == p.value.name + "=" + p.value.value
    ensures p.Some? ==> p.value.value != [] && '=' !in p.value.name
  {
    var i := Find(field, '=');
    if i + 1 >= |field| then None
    else Some(Param(field[..i], field[i + 1..]))
  }

  function FieldsToParams(fields: seq<string>): (ps: seq<Param>)
    requires forall k :: 0 <= k < |fields| ==> '&' !in fields[k]
    ensures forall k :: 0 <= k < |ps| ==> ps[k].value != [] && '&' !in ps[k].value
  {
    if fields == [] then []
    else
      var rest := FieldsToParams(fields[1..]);
      match FieldParam(fields[0])
      case Some(p) => [p] + rest
      case None => rest
  }

  /** `parse_qsl(q)` without percent-decoding: the non-blank fields in order. */
  function QueryParams(q: string): (ps: seq<Param>)
    ensures forall k :: 0 <= k < |ps| ==> ps[k].value != [] && '&' !in ps[k].value
  {
    FieldsToParams(Split(q, '&'))
  }

  /** The first value recorded for `name`, as `parse_qs(q).get(name, [None])[0]`. */
  function FirstValue(ps: seq<Param>, name: string): (v: Option<string>)
    ensures v.Some? ==> exists k :: 0 <= k < |ps| && ps[k] == Param(name, v.value)
    ensures v.None? ==> forall k :: 0 <= k < |ps| ==> ps[k].name != name
  {
    if ps == [] then None
    else if ps[0].name == name then Some(ps[0].value)
    else
      var v := FirstValue(ps[1..], name);
      assert forall k :: 0 <= k < |ps[1..]| ==> ps[1..][k] == ps[k + 1];
      v
  }

  /** The first parameter named `name` decides the value. */
  lemma {:induction false} FirstValueAt(ps: seq<Param>, k: nat, name: string)
    requires k < |ps| && ps[k].name == name
    requires forall j :: 0 <= j < k ==> ps[j].name != name
    ensures FirstValue(ps, name) == Some(ps[k].value)
  {
    if k > 0 {
      FirstValueAt(ps[1..], k - 1, name);
    }
  }

  function QueryValue(q: string, name: string): (v: Option<string>)
    ensures v.Some? ==> v.value != [] && '&' !in v.value
  {
    FirstValue(QueryParams(q), name)
  }

  /** The query field `name=value`. */
  function Field(name: string, value: string): string {
    name + "=" + value
  }

  /** Two query fragments joined by the `&` separator. */
  function Join(first: string, rest: string): string {
    first + "&" + rest
  }

  /** A field `name=value` followed by `&` and more contributes its pair first. */
  lemma ParamsOfJoin(name: string, value: string, rest: string)
    requires '&' !in name && '&' !in value && '=' !in name && value != []
    ensures QueryParams(Join(Field(name, value), rest)) == [Param(name, value)] + QueryParams(rest)
  {
    var field := Field(name, value);
    assert Join(field, rest) == field + ['&'] + rest;
    assert '&' !in field;
    SplitJoin(field, rest, '&');
    assert field == name + ['='] + value;
    FindAfter(name, value, '=');
    assert field[..|name|] == name && field[|name| + 1..] == value;
    assert FieldParam(field) == Some(Param(name, value));
  }

  /** A last field `name=value` contributes exactly its pair. */
  lemma ParamsOfLast(name: string, value: string)
    requires '&' !in name && '&' !in value && '=' !in name && value != []
    ensures QueryParams(Field(name, value)) == [Param(name, value)]
  {
    var field := Field(name, value);
    assert '&' !in field;
    assert Split(field, '&') == [field];
    var fields: seq<string> := [field];
    assert fields[1..] == [];
    assert field == name + ['='] + value;
    FindAfter(name, value, '=');
    assert field[..|name|] == name && field[|name| + 1..] == value;
    assert FieldParam(field) == Some(Param(name, value));
    assert FieldsToParams(fields) == [Param(name, value)] + FieldsToParams(fields[1..]);
  }

  /** A well-formed parameter: a name without `&` or `=` and a non-blank value without `&` or `#`. */
  predicate PlainParam(p: Param) {
    '&' !in p.name && '=' !in p.name && '#' !in p.name && '&' !in p.value && '#' !in p.value && p.value != []
  }

  /** The query string `n1=v1&n2=v2&...` of a non-empty list of parameters. */
  function Encode(ps: seq<Param>): string
    requires ps != []
  {
    if |ps| == 1 then Field(ps[0].name, ps[0].value)
    else Join(Field(ps[0].name, ps[0].value), Encode(ps[1..]))
  }

  /** Parsing what `Encode` wrote gives back the parameters, and the query holds no `#`. */
  lemma {:induction false} EncodeRoundTrip(ps: seq<Param>)
    requires ps != []
    requires forall k :: 0 <= k < |ps| ==> PlainParam(ps[k])
    ensures QueryParams(Encode(ps)) == ps
    ensures '#' !in Encode(ps)
  {
    var p := ps[0];
    assert PlainParam(p);
    if |ps| == 1 {
      ParamsOfLast(p.name, p.value);
      assert ps == [p];
    } else {
      EncodeRoundTrip(ps[1..]);
      ParamsOfJoin(p.name, p.value, Encode(ps[1..]));
      assert ps == [p] + ps[1..];
    }
  }

  /** The query of `base?query`, when `base` holds no `?` or `#` and `query` no `#`. */
  lemma QueryOfJoin(base: string, query: string)
    requires '?' !in base && '#' !in base && '#' !in query
    ensures QueryOf(base + "?" + query) == query
  {
    var url := base + "?" + query;
    assert '#' !in url;
    assert TakeUntil(url, '#') == url;
    assert url == base + ['?'] + query;
    FindAfter(base, query, '?');
    assert url[|base| + 1..] == query;
  }
}
