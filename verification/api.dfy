/**
 The gateway to the spreadsheet endpoint: building the list query, classifying
 a fetch outcome, validating and padding the rows of a list response,
 building the POST for a new sale, and the reachability probe. The network
 itself is an input: a `Transport` says what the fetch came back with.
 */
module Api {
  import opened Text
  import opened JsValues
  import opened Sales
  import Config

  // ---------------------------------------------------------------------------
  // encodeURIComponent
  // ---------------------------------------------------------------------------

  /** The characters `encodeURIComponent` leaves as they are. */
  predicate Unreserved(c: char) {
    || ('A' <= c <= 'Z') || ('a' <= c <= 'z') || ('0' <= c <= '9')
    || c == '-' || c == '_' || c == '.' || c == '!' || c == '~' || c == '*' || c == '\'' || c == '(' || c == ')'
  }

  function HexDigit(n: nat): (c: char)
    requires n < 16
    ensures Unreserved(c) && IsHex(c)
  {
    "0123456789ABCDEF"[n]
  }

  predicate IsHex(c: char) {
    ('0' <= c <= '9') || ('A' <= c <= 'F') || ('a' <= c <= 'f')
  }

  function HexValue(c: char): (n: nat)
    requires IsHex(c)
    ensures n < 16
  {
    if '0' <= c <= '9' then (c as int - '0' as int) as nat
    else if 'A' <= c <= 'F' then (c as int - 'A' as int + 10) as nat
    else (c as int - 'a' as int + 10) as nat
  }

  lemma HexRoundTrip(n: nat)
    requires n < 16
    ensures IsHex(HexDigit(n)) && HexValue(HexDigit(n)) == n
  {
  }

  /** The UTF-8 bytes of one code point. */
  function Utf8(c: char): (bytes: seq<nat>)
    ensures 1 <= |bytes| <= 4
    ensures forall k :: 0 <= k < |bytes| ==> bytes[k] < 256
    ensures (c as int) < 0x80 ==> bytes == [c as int]
  {
    var cp := c as int;
    if cp < 0x80 then [cp]
    else if cp < 0x800 then [0xC0 + cp / 64, 0x80 + cp % 64]
    else if cp < 0x10000 then [0xE0 + cp / 4096, 0x80 + (cp / 64) % 64, 0x80 + cp % 64]
    else [0xF0 + cp / 262144, 0x80 + (cp / 4096) % 64, 0x80 + (cp / 64) % 64, 0x80 + cp % 64]
  }

  /** Text made only of unreserved characters and `%XX` escapes with two hex digits. */
  predicate Escaped(t: string)
    decreases |t|
  {
    if |t| == 0 then true
    else if t[0] == '%' then |t| >= 3 && IsHex(t[1]) && IsHex(t[2]) && Escaped(t[3..])
    else Unreserved(t[0]) && Escaped(t[1..])
  }

  lemma {:induction false} EscapedAppend(a: string, b: string)
    requires Escaped(a) && Escaped(b)
    ensures Escaped(a + b)
    decreases |a|
  {
    if |a| > 0 {
      var ab := a + b;
      if a[0] == '%' {
        EscapedAppend(a[3..], b);
        assert ab[3..] == a[3..] + b;
      } else {
        EscapedAppend(a[1..], b);
        assert ab[1..] == a[1..] + b;
      }
    } else {
      assert a + b == b;
    }
  }

  /** Each byte as `%` and two upper-case hex digits. */
  function PercentBytes(bytes: seq<nat>): (r: string)
    requires forall k :: 0 <= k < |bytes| ==> bytes[k] < 256
    ensures forall i :: 0 <= i < |r| ==> Unreserved(r[i]) || r[i] == '%'
    ensures Escaped(r)
  {
    if |bytes| == 0 then ""
    else
      var rest := PercentBytes(bytes[1..]);
      var r := ['%', HexDigit(bytes[0] / 16), HexDigit(bytes[0] % 16)] + rest;
      assert r[3..] == rest;
      r
  }

  function EncodeChar(c: char): (r: string)
    ensures forall i :: 0 <= i < |r| ==> Unreserved(r[i]) || r[i] == '%'
    ensures Escaped(r)
  {
    if Unreserved(c) then [c] else PercentBytes(Utf8(c))
  }

  /**
   `encodeURIComponent`: the result holds only unreserved characters and
   `%XX` escapes, so it can sit inside a query string without adding a
   parameter or ending the query.
   */
  function EncodeUriComponent(s: string): (r: string)
    ensures forall i :: 0 <= i < |r| ==> Unreserved(r[i]) || r[i] == '%'
    ensures Escaped(r)
  {
    if |s| == 0 then ""
    else
      EscapedAppend(EncodeChar(s[0]), EncodeUriComponent(s[1..]));
      EncodeChar(s[0]) + EncodeUriComponent(s[1..])
  }

  /** Percent-decoding restricted to single-byte (ASCII) escapes. */
  function DecodeAscii(t: string): Option<string>
    decreases |t|
  {
    if |t| == 0 then Some("")
    else if t[0] == '%' then
      if |t| >= 3 && IsHex(t[1]) && IsHex(t[2]) && HexValue(t[1]) * 16 + HexValue(t[2]) < 0x80 then
        match DecodeAscii(t[3..])
        case None => None
        case Some(rest) => Some([(HexValue(t[1]) * 16 + HexValue(t[2])) as char] + rest)
      else None
    else
      match DecodeAscii(t[1..])
      case None => None
      case Some(rest) => Some([t[0]] + rest)
  }

  predicate IsAscii(s: string) {
    forall i :: 0 <= i < |s| ==> (s[i] as int) < 0x80
  }

  /** For ASCII text, percent-decoding undoes `encodeURIComponent`. */
  lemma {:induction false} DecodeEncodeAscii(s: string)
    requires IsAscii(s)
    ensures DecodeAscii(EncodeUriComponent(s)) == Some(s)
    decreases |s|
  {
    if |s| > 0 {
      DecodeEncodeAscii(s[1..]);
      DecodeEncodedChar(s[0], EncodeUriComponent(s[1..]), s[1..]);
      assert [s[0]] + s[1..] == s;
    }
  }

  /** Decoding one encoded ASCII character in front of decodable text. */
  lemma DecodeEncodedChar(c: char, rest: string, plain: string)
    requires (c as int) < 0x80
    requires DecodeAscii(rest) == Some(plain)
    ensures DecodeAscii(EncodeChar(c) + rest) == Some([c] + plain)
  {
    var t := EncodeChar(c) + rest;
    if Unreserved(c) {
      assert t[1..] == rest;
    } else {
      var b := c as int;
      HexRoundTrip(b / 16);
      HexRoundTrip(b % 16);
      assert PercentBytes([b]) == ['%', HexDigit(b / 16), HexDigit(b % 16)] + PercentBytes([b][1..]);
      assert t[3..] == rest;
      assert (HexValue(t[1]) * 16 + HexValue(t[2])) as char == c;
    }
  }

  // ---------------------------------------------------------------------------
  // The list query
  // ---------------------------------------------------------------------------

  /** `${params.startDate || ''}`: a falsy date renders as the empty string. */
  function DateParam(v: Value): (t: string)
    ensures !Truthy(v) ==> t == ""
    ensures v.Str? && v.s != "" ==> t == v.s
  {
    ToText(Or(v, Str("")))
  }

  /**
   The query parameters of the list URL: `target` with the encoded target,
   then both dates when at least one is given.
   */
  function QueryParams(target: string, startDate: Value, endDate: Value): (ps: seq<string>)
    ensures !Truthy(startDate) && !Truthy(endDate) ==> ps == ["target=" + EncodeUriComponent(target)]
    ensures Truthy(startDate) || Truthy(endDate) ==>
      ps == ["target=" + EncodeUriComponent(target), "startDate=" + DateParam(startDate), "endDate=" + DateParam(endDate)]
  {
    ["target=" + EncodeUriComponent(target)]
      + if Truthy(startDate) || Truthy(endDate)
        then ["startDate=" + DateParam(startDate), "endDate=" + DateParam(endDate)]
        else []
  }

  /**
   The list URL: `base?` and the query parameters joined by '&'. `fetchVentas`
   uses the proxy as `base` and the script address as `target` (`FetchVentasUrl`).
   */
  function ListUrl(base: string, target: string, startDate: Value, endDate: Value): string {
    base + "?" + Join(QueryParams(target, startDate, endDate), "&")
  }

  function FetchVentasUrl(startDate: Value, endDate: Value): string {
    ListUrl(Config.ProxyUrl, Config.GasUrl, startDate, endDate)
  }

  /** The query string of a URL: what follows the first '?'. */
  function QueryOf(url: string): string
    decreases |url|
  {
    if |url| == 0 then "" else if url[0] == '?' then url[1..] else QueryOf(url[1..])
  }

  lemma {:induction false} QueryOfAfterBase(base: string, rest: string)
    requires '?' !in base
    ensures QueryOf(base + "?" + rest) == rest
    decreases |base|
  {
    var url := base + "?" + rest;
    if |base| == 0 {
      assert url[1..] == rest;
    } else {
      assert url[1..] == base[1..] + "?" + rest;
      QueryOfAfterBase(base[1..], rest);
    }
  }

  /**
   Reading the list URL back: the query after the base's '?' splits on '&'
   into exactly the parameters, `target` first, and the `target` value decodes
   back to the target when that is ASCII. Dates are not encoded, so this holds
   when they carry no '&'.
   */
  lemma QueryParameters(base: string, target: string, startDate: Value, endDate: Value)
    requires '?' !in base
    requires '&' !in DateParam(startDate) && '&' !in DateParam(endDate)
    ensures var ps := QueryParams(target, startDate, endDate);
      && Split(QueryOf(ListUrl(base, target, startDate, endDate)), '&') == ps
      && ps[0] == "target=" + EncodeUriComponent(target)
      && (IsAscii(target) ==> DecodeAscii(EncodeUriComponent(target)) == Some(target))
  {
    var ps := QueryParams(target, startDate, endDate);
    if IsAscii(target) {
      DecodeEncodeAscii(target);
    }
    var a := "target=" + EncodeUriComponent(target);
    NoAmpersandInEncoding(target);
    QueryOfAfterBase(base, Join(ps, "&"));
    if Truthy(startDate) || Truthy(endDate) {
      var b, c := "startDate=" + DateParam(startDate), "endDate=" + DateParam(endDate);
      assert '&' !in b && '&' !in c;
      SplitThree(a, b, c, '&');
    } else {
      SplitNoSep(a, '&');
    }
  }

  lemma NoAmpersandInEncoding(target: string)
    ensures '&' !in "target=" + EncodeUriComponent(target)
  {
    var enc := EncodeUriComponent(target);
    assert forall i :: 0 <= i < |enc| ==> enc[i] != '&';
  }

  // ---------------------------------------------------------------------------
  // fetchWithTimeout
  // ---------------------------------------------------------------------------

  /** What a completed HTTP exchange reports. `json` is None when the body does not parse. */
  datatype HttpResponse = HttpResponse(
    ok: bool,
    status: int,
    contentType: Option<string>,
    bodyText: string,
    json: Option<Value>)

  /** How a fetch ended: aborted by its timer, failed in transport, or answered. */
  datatype Transport = TimedOut | NetworkFailure | Responded(response: HttpResponse)

  datatype FetchError =
    | Aborted
    | Network
    | HttpStatus(status: int)
    | NotJson(snippet: string)
    | MalformedJson
    | BadFormat
    | RowTypeError

  datatype Fetched<T> = Ok(value: T) | Failed(error: FetchError)

  /** A content-type header that is present, non-empty and mentions JSON. */
  predicate JsonContentType(ct: Option<string>) {
    ct.Some? && ct.value != "" && Contains(ct.value, "application/json")
  }

  /** `text.substring(0, n)`. */
  function Prefix(text: string, n: nat): (r: string)
    ensures |r| <= n && |r| <= |text| && r == text[..|r|]
    ensures |text| >= n ==> |r| == n
  {
    if |text| <= n then text else text[..n]
  }

  /**
   `fetchWithTimeout`: succeeds with the parsed body exactly when the response
   is ok, declares JSON and parses; a non-ok status fails first, then a
   missing or non-JSON content type, then a body that does not parse.
   */
  function FetchWithTimeout(t: Transport): (r: Fetched<Value>)
    ensures r.Ok? <==> t.Responded? && t.response.ok && JsonContentType(t.response.contentType) && t.response.json.Some?
    ensures r.Ok? ==> r.value == t.response.json.value
    ensures t.Responded? && !t.response.ok ==> r == Failed(HttpStatus(t.response.status))
    ensures t.Responded? && t.response.ok && !JsonContentType(t.response.contentType) ==>
      r == Failed(NotJson(Prefix(t.response.bodyText, 100)))
    ensures r.Failed? && r.error.NotJson? ==>
      && t.Responded?
      && |r.error.snippet| <= 100 && |r.error.snippet| <= |t.response.bodyText|
      && r.error.snippet == t.response.bodyText[..|r.error.snippet|]
      && (|t.response.bodyText| >= 100 ==> |r.error.snippet| == 100)
  {
    match t
    case TimedOut => Failed(Aborted)
    case NetworkFailure => Failed(Network)
    case Responded(resp) =>
      if !resp.ok then Failed(HttpStatus(resp.status))
      else if !JsonContentType(resp.contentType) then Failed(NotJson(Prefix(resp.bodyText, 100)))
      else if resp.json.None? then Failed(MalformedJson)
      else Ok(resp.json.value)
  }

  // ---------------------------------------------------------------------------
  // fetchVentas: response shape and row padding
  // ---------------------------------------------------------------------------

  /** A response is usable when it is truthy and its `data` field is an array. */
  function ResponseRows(response: Value): (r: Fetched<seq<Value>>)
    ensures r.Ok? <==> Truthy(response) && Property(response, "data").Arr?
    ensures r.Ok? ==> r.value == Property(response, "data").items
    ensures r.Failed? ==> r.error == BadFormat
  {
    if !Truthy(response) then Failed(BadFormat)
    else
      var data := Property(response, "data");
      if !Truthy(data) || !data.Arr? then Failed(BadFormat) else Ok(data.items)
  }

  /** `n` empty-string cells. */
  function Blanks(n: nat): (r: seq<Value>)
    ensures |r| == n && forall k :: 0 <= k < n ==> r[k] == Str("")
  {
    if n == 0 then [] else [Str("")] + Blanks(n - 1)
  }

  /**
   The padding loop on one row: an array shorter than 8 gets empty strings
   pushed; a short string has no `push` and null or undefined no `length`,
   so those throw; any other value has no numeric length and passes.
   */
  function PadRow(row: Value): (r: Fetched<Value>)
    ensures r.Failed? <==> Nullish(row) || (row.Str? && |row.s| < 8)
    ensures r.Ok? ==> RowPadded(row, r.value)
  {
    match row
    case Arr(items) => if |items| < 8 then Ok(Arr(items + Blanks(8 - |items|))) else Ok(row)
    case Str(s) => if |s| < 8 then Failed(RowTypeError) else Ok(row)
    case Null => Failed(RowTypeError)
    case Undefined => Failed(RowTypeError)
    case _ => Ok(row)
  }

  /**
   `after` is `before` padded: an array keeps every cell and grows to at least 8
   with empty strings, and an array already 8 long, or any other value, is unchanged.
   */
  predicate RowPadded(before: Value, after: Value) {
    if before.Arr? then
      && after.Arr?
      && |after.items| >= 8
      && |after.items| == (if |before.items| >= 8 then |before.items| else 8)
      && after.items[..|before.items|] == before.items
      && (forall k :: |before.items| <= k < |after.items| ==> after.items[k] == Str(""))
    else after == before
  }

  /** Padding a padded row changes nothing. */
  lemma PadRowIdempotent(row: Value)
    requires PadRow(row).Ok?
    ensures PadRow(PadRow(row).value) == PadRow(row)
  {
  }

  /** `data.map(...)` with the padding loop: the first row that throws aborts the whole map. */
  function PadRows(rows: seq<Value>): (r: Fetched<seq<Value>>)
    ensures r.Ok? <==> forall k :: 0 <= k < |rows| ==> PadRow(rows[k]).Ok?
    ensures r.Ok? ==> |r.value| == |rows|
    ensures r.Ok? ==> forall k :: 0 <= k < |rows| ==> RowPadded(rows[k], r.value[k]) && !Nullish(r.value[k])
    ensures r.Failed? ==> r.error == RowTypeError
  {
    if |rows| == 0 then Ok([])
    else match PadRow(rows[0])
      case Failed(e) => Failed(e)
      case Ok(first) =>
        match PadRows(rows[1..])
        case Failed(e) => Failed(e)
        case Ok(rest) => Ok([first] + rest)
  }

  /**
   `fetchVentas` given the outcome of its request: fetch errors propagate; a
   body without an array `data` fails with the invalid-format error; otherwise
   the padded rows, one per row of `data`.
   */
  function FetchVentas(t: Transport): (r: Fetched<seq<Value>>)
    ensures FetchWithTimeout(t).Failed? ==> r == Failed(FetchWithTimeout(t).error)
    ensures FetchWithTimeout(t).Ok? && ResponseRows(FetchWithTimeout(t).value).Failed? ==> r == Failed(BadFormat)
    ensures r.Ok? <==>
      && FetchWithTimeout(t).Ok?
      && ResponseRows(FetchWithTimeout(t).value).Ok?
      && forall k :: 0 <= k < |ResponseRows(FetchWithTimeout(t).value).value| ==>
           PadRow(ResponseRows(FetchWithTimeout(t).value).value[k]).Ok?
    ensures FetchWithTimeout(t).Ok? && ResponseRows(FetchWithTimeout(t).value).Ok? && r.Failed? ==> r.error == RowTypeError
    ensures r.Ok? ==>
      var data := Property(t.response.json.value, "data").items;
      && |r.value| == |data|
      && forall k :: 0 <= k < |data| ==> RowPadded(data[k], r.value[k]) && !Nullish(r.value[k])
  {
    match FetchWithTimeout(t)
    case Failed(e) => Failed(e)
    case Ok(response) =>
      match ResponseRows(response)
      case Failed(e) => Failed(e)
      case Ok(data) => PadRows(data)
  }

  // ---------------------------------------------------------------------------
  // sendVenta
  // ---------------------------------------------------------------------------

  /** The JSON body of a POST: the sale's fields plus `_uniqueId`. */
  datatype Payload = Payload(sale: Sale, uniqueId: string)

  datatype Request = Request(url: string, verb: string, headers: seq<(string, string)>, body: Payload)

  /** The first value of the header `name`. */
  function Header(headers: seq<(string, string)>, name: string): Option<string> {
    if |headers| == 0 then None
    else if headers[0].0 == name then Some(headers[0].1)
    else Header(headers[1..], name)
  }

  /**
   `sendVenta`'s request: a JSON POST to the proxy whose body is the sale plus
   a fresh `_uniqueId` (clock reading, '-', random base-36 text), repeated in
   `X-Request-ID`; `Target-URL` names the script.
   */
  function SendVentaRequest(sale: Sale, nowMs: nat, randomPart: string): (req: Request)
    ensures req.url == Config.ProxyUrl && req.verb == "POST"
    ensures req.body.sale == sale
    ensures Header(req.headers, "X-Request-ID") == Some(req.body.uniqueId)
    ensures Header(req.headers, "Target-URL") == Some(Config.GasUrl)
    ensures Header(req.headers, "Content-Type") == Some("application/json")
    ensures '-' !in randomPart ==> Split(req.body.uniqueId, '-') == [NatToString(nowMs), randomPart]
  {
    var uniqueId := NatToString(nowMs) + "-" + randomPart;
    UniqueIdParts(nowMs, randomPart);
    var headers := [
      ("Content-Type", "application/json"),
      ("Accept", "application/json"),
      ("Target-URL", Config.GasUrl),
      ("X-Request-ID", uniqueId)];
    assert Header(headers[3..], "X-Request-ID") == Some(uniqueId);
    assert headers[2..][1..] == headers[3..] && headers[1..][1..] == headers[2..];
    assert Header(headers[2..], "X-Request-ID") == Some(uniqueId);
    assert Header(headers[1..], "X-Request-ID") == Some(uniqueId);
    assert Header(headers[2..], "Target-URL") == Some(Config.GasUrl);
    Request(Config.ProxyUrl, "POST", headers, Payload(sale, uniqueId))
  }

  /** The request id splits back into its clock reading and its random part. */
  lemma UniqueIdParts(nowMs: nat, randomPart: string)
    ensures '-' !in randomPart ==> Split(NatToString(nowMs) + "-" + randomPart, '-') == [NatToString(nowMs), randomPart]
  {
    if '-' !in randomPart {
      var stamp := NatToString(nowMs);
      assert forall i :: 0 <= i < |stamp| ==> IsDigit(stamp[i]);
      assert [stamp, randomPart][1..] == [randomPart];
      assert Join([stamp, randomPart], "-") == stamp + "-" + randomPart;
      SplitJoin([stamp, randomPart], '-');
    }
  }

  // ---------------------------------------------------------------------------
  // checkConnection
  // ---------------------------------------------------------------------------

  /** The probe: true when the fetch succeeded; every failure is folded into false, nothing is thrown. */
  function CheckConnection(t: Transport): (online: bool)
    ensures online <==> t.Responded? && t.response.ok && JsonContentType(t.response.contentType) && t.response.json.Some?
    ensures t.TimedOut? || t.NetworkFailure? ==> !online
  {
    FetchWithTimeout(t).Ok?
  }
  /**
   The non-JSON error keeps the whole body exactly when it is at most 100
   characters long; a longer body is cut to its first 100.
   */
  lemma NotJsonSnippet(t: Transport)
    requires t.Responded? && t.response.ok && !JsonContentType(t.response.contentType)
    ensures FetchWithTimeout(t).Failed? && FetchWithTimeout(t).error.NotJson?
    ensures FetchWithTimeout(t).error.snippet == t.response.bodyText <==> |t.response.bodyText| <= 100
    ensures |t.response.bodyText| > 100 ==> FetchWithTimeout(t).error.snippet == t.response.bodyText[..100]
  {
    var snippet := FetchWithTimeout(t).error.snippet;
    assert |snippet| <= 100;
  }

  /** A body `{..., data: rows}` reads back as the rows, whatever its other fields. */
  lemma EnvelopeRows(fields: map<string, Value>, rows: seq<Value>)
    ensures ResponseRows(Obj(fields["data" := Arr(rows)])) == Ok(rows)
  {
    assert Property(Obj(fields["data" := Arr(rows)]), "data") == Arr(rows);
  }

  /**
   The probe and the list fetch classify a response alike: given the same
   outcome of the request, the probe fails exactly when the list fetch fails
   for a reason other than the shape of its rows.
   */
  lemma ProbeAgreesWithList(t: Transport)
    ensures !CheckConnection(t) <==>
      FetchVentas(t).Failed? && FetchVentas(t).error != BadFormat && FetchVentas(t).error != RowTypeError
  {
    if FetchWithTimeout(t).Failed? {
      assert FetchVentas(t) == Failed(FetchWithTimeout(t).error);
    }
  }
}
