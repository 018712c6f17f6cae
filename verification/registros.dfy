/**
 The records view: mapping the server's rows to records, the product and
 settlement-state filters, the date-range filter on date strings, the date
 and time cells, pagination, and the CSV export text.

 Engine date parsing (`new Date(x)` on anything that is not one of the two
 date shapes handled here) is a function parameter.
 */
module Registros {
  import opened JsValues
  import opened Text
  import opened Seqs
  import opened Ui
  import opened Utils
  import Api
  import Config

  /** One record as the view holds it: cells of the server row, date and time already formatted. */
  datatype Registro = Registro(
    id: Value,
    producto: Value,
    referencia: Value,
    descripcion: Value,
    precio: Value,
    precioFinal: Value,
    fecha: string,
    hora: string,
    liquidado: Value)

  // ---------------------------------------------------------------------------
  // DD/MM/YYYY and YYYY-MM-DD
  // ---------------------------------------------------------------------------

  /** The shape `/^\d{2}:\d{2}:\d{2}$/` checks. */
  predicate IsClockTime(s: string) {
    && |s| == 8
    && AllDigits(s[..2]) && s[2] == ':' && AllDigits(s[3..5]) && s[5] == ':' && AllDigits(s[6..])
  }

  function DisplayToIso(s: string): string
    requires |s| == 10
  {
    s[6..] + "-" + s[3..5] + "-" + s[..2]
  }

  function IsoToDisplay(s: string): string
    requires |s| == 10
  {
    s[8..] + "/" + s[5..7] + "/" + s[..4]
  }

  /** DD/MM/YYYY rewritten as YYYY-MM-DD and back gives the original. */
  lemma DisplayIsoRoundTrip(s: string)
    requires IsDisplayDate(s)
    ensures IsIsoDate(DisplayToIso(s)) && IsoToDisplay(DisplayToIso(s)) == s
  {
    var t := DisplayToIso(s);
    assert t[..4] == s[6..] && t[5..7] == s[3..5] && t[8..] == s[..2];
    assert s == s[..2] + "/" + s[3..5] + "/" + s[6..];
  }

  /** YYYY-MM-DD rewritten as DD/MM/YYYY and back gives the original. */
  lemma IsoDisplayRoundTrip(s: string)
    requires IsIsoDate(s)
    ensures IsDisplayDate(IsoToDisplay(s)) && DisplayToIso(IsoToDisplay(s)) == s
  {
    var t := IsoToDisplay(s);
    assert t[..2] == s[8..] && t[3..5] == s[5..7] && t[6..] == s[..4];
    assert s == s[..4] + "-" + s[5..7] + "-" + s[8..];
  }

  /** A DD/MM/YYYY string splits on '/' into its three digit fields. */
  lemma DisplayDateParts(s: string)
    requires IsDisplayDate(s)
    ensures Split(s, '/') == [s[..2], s[3..5], s[6..]]
  {
    var a, b, c := s[..2], s[3..5], s[6..];
    DigitsHaveNoSeparator(a, '/');
    DigitsHaveNoSeparator(b, '/');
    DigitsHaveNoSeparator(c, '/');
    assert s == a + "/" + b + "/" + c;
    SplitThree(a, b, c, '/');
  }

  // ---------------------------------------------------------------------------
  // The date-range filter
  // ---------------------------------------------------------------------------

  /**
   The ISO date the range filter compares for a date cell: none for null or
   undefined (the row is dropped); DD/MM/YYYY split on '/' and reassembled as
   year-month-day with month and day padded; YYYY-MM-DD as is; anything else
   through the engine's date parsing (`parse`), which yields none for an
   invalid date.
   */
  function CellIsoDate(cell: Value, parse: Value -> Option<string>): (r: Option<string>)
    ensures Nullish(cell) ==> r == None
    ensures cell.Str? && IsDisplayDate(cell.s) ==> r == Some(DisplayToIso(cell.s))
    ensures cell.Str? && IsIsoDate(cell.s) ==> r == Some(cell.s)
  {
    if Nullish(cell) then None
    else if cell.Str? && IsDisplayDate(cell.s) then
      var parts := Split(cell.s, '/');
      DisplayBranch(cell.s);
      Some(parts[2] + "-" + PadStart2(parts[1]) + "-" + PadStart2(parts[0]))
    else if cell.Str? && IsIsoDate(cell.s) then Some(cell.s)
    else parse(cell)
  }

  /** The DD/MM/YYYY branch of the date filter computes `DisplayToIso`; no string has both shapes. */
  lemma DisplayBranch(s: string)
    requires IsDisplayDate(s)
    ensures var parts := Split(s, '/');
      |parts| == 3 && parts[2] + "-" + PadStart2(parts[1]) + "-" + PadStart2(parts[0]) == DisplayToIso(s)
    ensures !IsIsoDate(s)
  {
    DisplayDateParts(s);
    var parts := Split(s, '/');
    assert PadStart2(parts[1]) == s[3..5] && PadStart2(parts[0]) == s[..2];
    assert s[4] == s[3..5][1];
  }

  /** `start <= iso && iso <= end` on strings. */
  predicate InRange(iso: string, start: string, end: string) {
    LexLe(start, iso) && LexLe(iso, end)
  }

  /** Whether the date filter keeps a row whose date cell is `cell`. */
  predicate KeepsDate(cell: Value, start: string, end: string, parse: Value -> Option<string>) {
    var iso := CellIsoDate(cell, parse);
    iso.Some? && InRange(iso.value, start, end)
  }

  /** The outcome of `filtrarPorFechaEnFrontend`: the rows kept, or a TypeError from a null row. */
  datatype DateFiltered = Kept(rows: seq<Value>) | FilterThrew

  /** `row[6]` on a row that is not null or undefined. */
  function DateCell(row: Value): Value
    requires !Nullish(row)
  {
    Index(row, 6).value
  }

  /** The date filter's condition on a whole row, for rows that are not null or undefined. */
  function DateKeeps(start: string, end: string, parse: Value -> Option<string>): Value -> bool {
    row => !Nullish(row) && KeepsDate(DateCell(row), start, end, parse)
  }

  /**
   `rows.filter(...)` with the date condition, row by row: the first null or
   undefined row throws; otherwise the rows kept are those of one `Filter`
   pass with `DateKeeps`.
   */
  function FilterRowsByDate(rows: seq<Value>, start: string, end: string, parse: Value -> Option<string>): (r: DateFiltered)
    ensures r.FilterThrew? <==> exists k :: 0 <= k < |rows| && Nullish(rows[k])
    ensures r.Kept? ==> r.rows == Filter(DateKeeps(start, end, parse), rows)
  {
    if |rows| == 0 then Kept([])
    else if Nullish(rows[0]) then FilterThrew
    else match FilterRowsByDate(rows[1..], start, end, parse)
      case FilterThrew =>
        assert forall k :: 0 <= k < |rows[1..]| ==> rows[1..][k] == rows[k + 1];
        FilterThrew
      case Kept(rest) =>
        if KeepsDate(DateCell(rows[0]), start, end, parse) then Kept([rows[0]] + rest) else Kept(rest)
  }

  /**
   When the date filter does not throw it keeps every copy of a row whose date
   is in range, in order, and nothing else.
   */
  lemma DateFilterKeeps(rows: seq<Value>, start: string, end: string, parse: Value -> Option<string>)
    ensures var r := FilterRowsByDate(rows, start, end, parse);
      r.Kept? ==>
      && (forall x :: multiset(r.rows)[x] ==
            if !Nullish(x) && KeepsDate(DateCell(x), start, end, parse) then multiset(rows)[x] else 0)
      && IsSubsequence(r.rows, rows)
      && (forall k :: 0 <= k < |r.rows| ==> !Nullish(r.rows[k]) && KeepsDate(DateCell(r.rows[k]), start, end, parse))
      && (forall k :: 0 <= k < |rows| && KeepsDate(DateCell(rows[k]), start, end, parse) ==> rows[k] in r.rows)
  {
    var keeps := DateKeeps(start, end, parse);
    var r := FilterRowsByDate(rows, start, end, parse);
    if r.Kept? {
      FilterIsSubsequence(keeps, rows);
      FilterMultiset(keeps, rows);
      forall x
        ensures multiset(r.rows)[x] == if !Nullish(x) && KeepsDate(DateCell(x), start, end, parse) then multiset(rows)[x] else 0
      {
        assert keeps(x) == (!Nullish(x) && KeepsDate(DateCell(x), start, end, parse));
      }
      forall k | 0 <= k < |r.rows|
        ensures !Nullish(r.rows[k]) && KeepsDate(DateCell(r.rows[k]), start, end, parse)
      {
        assert keeps(r.rows[k]);
      }
      forall k | 0 <= k < |rows| && KeepsDate(DateCell(rows[k]), start, end, parse)
        ensures rows[k] in r.rows
      {
        assert keeps(rows[k]);
      }
    }
  }

  /**
   `filtrarPorFechaEnFrontend`: anything but an array gives no rows; a null or
   undefined row throws; otherwise every copy of a row whose date, normalised
   to YYYY-MM-DD, lies between `start` and `end` by string order, in order,
   and nothing else.
   */
  function FiltrarPorFechaEnFrontend(data: Value, start: string, end: string, parse: Value -> Option<string>)
    : (r: DateFiltered)
    ensures !data.Arr? ==> r == Kept([])
    ensures data.Arr? ==> (r.FilterThrew? <==> exists k :: 0 <= k < |data.items| && Nullish(data.items[k]))
    ensures data.Arr? && r.Kept? ==>
      && r.rows == Filter(DateKeeps(start, end, parse), data.items)
      && (forall x :: multiset(r.rows)[x] ==
            if !Nullish(x) && KeepsDate(DateCell(x), start, end, parse) then multiset(data.items)[x] else 0)
      && IsSubsequence(r.rows, data.items)
      && (forall k :: 0 <= k < |r.rows| ==> !Nullish(r.rows[k]) && KeepsDate(DateCell(r.rows[k]), start, end, parse))
      && (forall k :: 0 <= k < |data.items| && KeepsDate(DateCell(data.items[k]), start, end, parse) ==>
            data.items[k] in r.rows)
  {
    if !data.Arr? then Kept([])
    else
      DateFilterKeeps(data.items, start, end, parse);
      FilterRowsByDate(data.items, start, end, parse)
  }

  /** A DD/MM/YYYY date and its YYYY-MM-DD form are kept or dropped alike. */
  lemma DisplayAndIsoFilterAlike(s: string, start: string, end: string, parse: Value -> Option<string>)
    requires IsDisplayDate(s)
    ensures KeepsDate(Str(s), start, end, parse) <==> KeepsDate(Str(DisplayToIso(s)), start, end, parse)
  {
    DisplayIsoRoundTrip(s);
  }

  /** One character equal on both sides does not decide the order. */
  lemma LexLeSameHead(c: char, y: string, y': string)
    ensures LexLe([c] + y, [c] + y') <==> LexLe(y, y')
  {
    assert ([c] + y)[1..] == y && ([c] + y')[1..] == y';
  }

  /** A leading digit field of equal width decides the order unless it is equal. */
  lemma LexLeField(x: string, y: string, x': string, y': string)
    requires |x| == |x'| && AllDigits(x) && AllDigits(x')
    ensures LexLe(x + y, x' + y') <==>
      ParseNat(x) < ParseNat(x') || (ParseNat(x) == ParseNat(x') && LexLe(y, y'))
  {
    LexLeConcat(x, y, x', y');
    LexLeDigits(x, x');
  }

  /**
   On YYYY-MM-DD strings, the string order the filter uses is calendar order:
   by year, then month, then day.
   */
  lemma IsoOrderIsCalendarOrder(a: string, b: string)
    requires IsIsoDate(a) && IsIsoDate(b)
    ensures LexLe(a, b) <==>
      || ParseNat(a[..4]) < ParseNat(b[..4])
      || (ParseNat(a[..4]) == ParseNat(b[..4]) && ParseNat(a[5..7]) < ParseNat(b[5..7]))
      || (ParseNat(a[..4]) == ParseNat(b[..4]) && ParseNat(a[5..7]) == ParseNat(b[5..7])
          && ParseNat(a[8..]) <= ParseNat(b[8..]))
  {
    IsoPieces(a);
    IsoPieces(b);
    LexLeField(a[..4], a[4..], b[..4], b[4..]);
    LexLeSameHead('-', a[5..], b[5..]);
    LexLeField(a[5..7], a[7..], b[5..7], b[7..]);
    LexLeSameHead('-', a[8..], b[8..]);
    LexLeDigits(a[8..], b[8..]);
  }

  /** The pieces of a YYYY-MM-DD string the order lemma walks through. */
  lemma IsoPieces(a: string)
    requires IsIsoDate(a)
    ensures a == a[..4] + a[4..]
    ensures a[4..] == ['-'] + a[5..]
    ensures a[5..] == a[5..7] + a[7..]
    ensures a[7..] == ['-'] + a[8..]
  {
  }

  // ---------------------------------------------------------------------------
  // The date and time cells
  // ---------------------------------------------------------------------------

  predicate IsLeapYear(y: nat) {
    y % 4 == 0 && (y % 100 != 0 || y % 400 == 0)
  }

  function DaysInMonth(y: nat, m: nat): (d: nat)
    requires 1 <= m <= 12
    ensures 28 <= d <= 31
  {
    if m == 2 then (if IsLeapYear(y) then 29 else 28)
    else if m == 4 || m == 6 || m == 9 || m == 11 then 30
    else 31
  }

  /** `Date.UTC` reads a year from 0 to 99 as 1900 plus that year. */
  function UtcYear(y: nat): nat {
    if y <= 99 then 1900 + y else y
  }

  /** A YYYY-MM-DD string naming a real calendar day, so that `Date.UTC` does not roll it over. */
  predicate IsCalendarIso(s: string) {
    && IsIsoDate(s)
    && 1 <= ParseNat(s[5..7]) <= 12
    && 1 <= ParseNat(s[8..]) <= DaysInMonth(UtcYear(ParseNat(s[..4])), ParseNat(s[5..7]))
  }

  /**
   `formatDate`: "-" for a falsy cell; DD/MM/YYYY as is; a calendar
   YYYY-MM-DD reordered as day/month/year, the year written as `Date.UTC`
   reads it; anything else through the engine (`other`).
   */
  function FormatDate(v: Value, other: Value -> string): (r: string)
    ensures !Truthy(v) ==> r == "-"
    ensures v.Str? && IsDisplayDate(v.s) ==> r == v.s
    ensures v.Str? && IsCalendarIso(v.s) && ParseNat(v.s[..4]) >= 1000 ==>
      IsDisplayDate(r) && DisplayToIso(r) == v.s
  {
    if !Truthy(v) then "-"
    else if v.Str? && IsDisplayDate(v.s) then v.s
    else if v.Str? && IsCalendarIso(v.s) then
      var s := v.s;
      var r := s[8..] + "/" + s[5..7] + "/" + NatToString(UtcYear(ParseNat(s[..4])));
      CalendarYearText(s);
      IsoDisplayRoundTrip(s);
      r
    else other(v)
  }

  /** A four-digit year from 1000 up is written back exactly as it was read. */
  lemma CalendarYearText(s: string)
    requires IsIsoDate(s)
    ensures ParseNat(s[..4]) >= 1000 ==> NatToString(UtcYear(ParseNat(s[..4]))) == s[..4]
  {
    var y := ParseNat(s[..4]);
    if y >= 1000 {
      ParseNatBound(s[..4]);
      FourDigitYear(y);
      LexLeDigits(NatToString(y), s[..4]);
    }
  }

  /** A calendar date from year 1000 shown by `formatDate` is the same string `formatDisplayDate` gives. */
  lemma FormatDateAgreesWithDisplay(s: string, other: Value -> string)
    requires IsCalendarIso(s) && ParseNat(s[..4]) >= 1000
    ensures FormatDate(Str(s), other) == FormatDisplayDate(Str(s))
  {
    assert s == s[..4] + "-" + s[5..7] + "-" + s[8..];
    var a, b, c := s[..4], s[5..7], s[8..];
    DigitsHaveNoSeparator(a, '-');
    DigitsHaveNoSeparator(b, '-');
    DigitsHaveNoSeparator(c, '-');
    assert [a, b, c][1..] == [b, c] && [b, c][1..] == [c];
    assert Join([c], "-") == c;
    assert Join([b, c], "-") == b + "-" + c;
    assert s == Join([a, b, c], "-");
    SplitJoin([a, b, c], '-');
    CalendarYearText(s);
  }

  /** `formatTime`: "-" for a falsy cell, HH:MM:SS as is, anything else through the engine (`other`). */
  function FormatTime(v: Value, other: Value -> string): (r: string)
    ensures !Truthy(v) ==> r == "-"
    ensures v.Str? && IsClockTime(v.s) ==> r == v.s
    ensures Truthy(v) && !(v.Str? && IsClockTime(v.s)) ==> r == other(v)
  {
    if !Truthy(v) then "-"
    else if v.Str? && IsClockTime(v.s) then v.s
    else other(v)
  }

  // ---------------------------------------------------------------------------
  // Row mapping
  // ---------------------------------------------------------------------------

  /** The engine's date and time rendering for cells of no recognised shape. */
  datatype Engine = Engine(dateText: Value -> string, timeText: Value -> string)

  /** `item[k]` on a row that is not null or undefined. */
  function Cell(item: Value, k: nat): Value
    requires !Nullish(item)
  {
    Index(item, k).value
  }

  /**
   The row-to-record mapping of `filtrarRegistros`: columns 0-5 as they are,
   date and time cells formatted, and settlement defaulting to "No" when its
   cell is falsy. A null or undefined row throws.
   */
  function MapRow(item: Value, engine: Engine): (r: Option<Registro>)
    ensures r.None? <==> Nullish(item)
    ensures r.Some? ==> Truthy(r.value.liquidado)
    ensures r.Some? && !Truthy(Cell(item, 8)) ==> r.value.liquidado == Str("No")
    ensures r.Some? && Truthy(Cell(item, 8)) ==> r.value.liquidado == Cell(item, 8)
    ensures r.Some? && item.Arr? && |item.items| >= 8 ==>
      && r.value.id == item.items[0] && r.value.producto == item.items[1]
      && r.value.referencia == item.items[2] && r.value.descripcion == item.items[3]
      && r.value.precio == item.items[4] && r.value.precioFinal == item.items[5]
      && r.value.fecha == FormatDate(item.items[6], engine.dateText)
      && r.value.hora == FormatTime(item.items[7], engine.timeText)
  {
    if Nullish(item) then None
    else Some(Registro(
      Cell(item, 0), Cell(item, 1), Cell(item, 2), Cell(item, 3), Cell(item, 4), Cell(item, 5),
      FormatDate(Cell(item, 6), engine.dateText),
      FormatTime(Cell(item, 7), engine.timeText),
      Or(Cell(item, 8), Str("No"))))
  }

  /**
   The time column through the list fetch and the row mapping: a row too
   short to hold a time is padded with an empty cell, which shows as "-";
   an HH:MM:SS time is shown as sent.
   */
  lemma PaddedRowTime(row: Value, engine: Engine)
    requires row.Arr?
    ensures Api.PadRow(row).Ok? && MapRow(Api.PadRow(row).value, engine).Some?
    ensures var hora := MapRow(Api.PadRow(row).value, engine).value.hora;
      && (|row.items| < 8 ==> hora == "-")
      && (|row.items| >= 8 && row.items[7].Str? && IsClockTime(row.items[7].s) ==> hora == row.items[7].s)
  {
    var padded := Api.PadRow(row).value;
    if |row.items| < 8 {
      assert padded.items[7] == Str("");
    } else {
      assert padded == row;
    }
  }

  /** `data.map(...)`: one record per row, or a throw at the first null row. */
  function MapRows(rows: seq<Value>, engine: Engine): (r: Option<seq<Registro>>)
    ensures r.Some? <==> forall k :: 0 <= k < |rows| ==> !Nullish(rows[k])
    ensures r.Some? ==> |r.value| == |rows|
  {
    if |rows| == 0 then Some([])
    else
      var head, tail := MapRow(rows[0], engine), MapRows(rows[1..], engine);
      assert forall k :: 1 <= k < |rows| ==> rows[k] == rows[1..][k - 1];
      if head.None? || tail.None? then None else Some([head.value] + tail.value)
  }

  /** The record at position `k` of a successful mapping is the mapping of row `k`. */
  lemma {:induction false} MapRowsPointwise(rows: seq<Value>, engine: Engine, k: nat)
    requires MapRows(rows, engine).Some? && k < |rows|
    ensures Some(MapRows(rows, engine).value[k]) == MapRow(rows[k], engine)
    decreases k
  {
    if k > 0 {
      MapRowsPointwise(rows[1..], engine, k - 1);
    }
  }

  // ---------------------------------------------------------------------------
  // The product and settlement filters
  // ---------------------------------------------------------------------------

  /** The selected products and the settlement state ('liquidado', 'sin-liquidar' or ''). */
  datatype Filters = Filters(productos: set<string>, estado: string)

  /** The records view: all records, the filtered ones, the page, the filters and the two date inputs. */
  datatype View = View(
    registros: seq<Registro>,
    filtered: seq<Registro>,
    page: int,
    filters: Filters,
    fechaInicio: string,
    fechaFin: string)

  datatype Step = Step(view: View, alerts: seq<Alert>)

  /** `productos.includes(reg.producto)`. */
  predicate ProductSelected(reg: Registro, productos: set<string>) {
    reg.producto.Str? && reg.producto.s in productos
  }

  /** `reg.liquidado === esperado` for the chosen state: 'Si' for 'liquidado', 'No' for any other. */
  predicate StateMatches(reg: Registro, estado: string) {
    reg.liquidado == Str(if estado == "liquidado" then "Si" else "No")
  }

  /** A record passes both filters; an empty product set and an empty state filter nothing. */
  predicate MatchesFilters(reg: Registro, f: Filters) {
    && (|f.productos| == 0 || ProductSelected(reg, f.productos))
    && (f.estado == "" || StateMatches(reg, f.estado))
  }

  /** `MatchesFilters` for a fixed filter set, as the condition of one filter pass. */
  function Matching(f: Filters): Registro -> bool {
    reg => MatchesFilters(reg, f)
  }

  /** The condition of the product pass. */
  function BySelected(productos: set<string>): Registro -> bool {
    reg => ProductSelected(reg, productos)
  }

  /** The condition of the state pass. */
  function ByState(estado: string): Registro -> bool {
    reg => StateMatches(reg, estado)
  }

  /**
   `aplicarFiltrosLocales`: the product filter, then the state filter, each
   only when set; page back to 1. The two passes amount to one pass with both
   conditions, so every copy of a record that passes both filters is kept, in
   the original order, and nothing else.
   */
  function AplicarFiltrosLocales(v: View): (r: View)
    ensures r == v.(filtered := r.filtered, page := 1)
    ensures r.filtered == Filter(Matching(v.filters), v.registros)
    ensures forall x :: multiset(r.filtered)[x] == if MatchesFilters(x, v.filters) then multiset(v.registros)[x] else 0
    ensures IsSubsequence(r.filtered, v.registros)
    ensures forall k :: 0 <= k < |r.filtered| ==> MatchesFilters(r.filtered[k], v.filters)
    ensures forall k :: 0 <= k < |v.registros| && MatchesFilters(v.registros[k], v.filters) ==>
      v.registros[k] in r.filtered
    ensures |v.filters.productos| == 0 && v.filters.estado == "" ==> r.filtered == v.registros
  {
    var f := v.filters;
    var byProduct := if |f.productos| > 0 then Filter(BySelected(f.productos), v.registros) else v.registros;
    var byState := if f.estado != "" then Filter(ByState(f.estado), byProduct) else byProduct;
    FiltersKeepMatching(v.registros, f, byProduct, byState);
    FilterMultiset(Matching(f), v.registros);
    v.(filtered := byState, page := 1)
  }

  /** The product pass followed by the state pass is the single pass `Matching(f)`. */
  lemma TwoPassesOnePass(registros: seq<Registro>, f: Filters, byProduct: seq<Registro>, byState: seq<Registro>)
    requires byProduct == if |f.productos| > 0 then Filter(BySelected(f.productos), registros) else registros
    requires byState == if f.estado != "" then Filter(ByState(f.estado), byProduct) else byProduct
    ensures byState == Filter(Matching(f), registros)
  {
    var product := BySelected(f.productos);
    var state := ByState(f.estado);
    if |f.productos| > 0 && f.estado != "" {
      FilterCompose(product, state, Matching(f), registros);
    } else if |f.productos| > 0 {
      FilterAgree(product, Matching(f), registros);
    } else if f.estado != "" {
      FilterAgree(state, Matching(f), registros);
    } else {
      FilterAll(Matching(f), registros);
    }
  }

  /**
   The two passes keep, in order, the records that pass both filters: a
   subsequence of the records, each kept one matching, each matching one kept.
   */
  lemma FiltersKeepMatching(registros: seq<Registro>, f: Filters, byProduct: seq<Registro>, byState: seq<Registro>)
    requires byProduct == if |f.productos| > 0 then Filter(BySelected(f.productos), registros) else registros
    requires byState == if f.estado != "" then Filter(ByState(f.estado), byProduct) else byProduct
    ensures byState == Filter(Matching(f), registros)
    ensures IsSubsequence(byState, registros)
    ensures forall k :: 0 <= k < |byState| ==> MatchesFilters(byState[k], f)
    ensures forall k :: 0 <= k < |registros| && MatchesFilters(registros[k], f) ==> registros[k] in byState
  {
    TwoPassesOnePass(registros, f, byProduct, byState);
    FilterIsSubsequence(Matching(f), registros);
    forall k | 0 <= k < |byState|
      ensures MatchesFilters(byState[k], f)
    {
      assert Matching(f)(byState[k]);
    }
    forall k | 0 <= k < |registros| && MatchesFilters(registros[k], f)
      ensures registros[k] in byState
    {
      assert Matching(f)(registros[k]);
    }
  }

  const MaxProductsAlert: Alert := Alert("M\U{00E1}ximo 3 productos permitidos", Warning)

  /**
   A click on a product in the filter menu: a selected product is removed, a
   new one added only while fewer than three are selected; at the cap the
   click only raises a warning and the filters are not re-applied.
   */
  function ToggleProducto(v: View, valor: string): (r: Step)
    ensures valor in v.filters.productos ==>
      r == Step(AplicarFiltrosLocales(v.(filters := v.filters.(productos := v.filters.productos - {valor}))), [])
    ensures valor !in v.filters.productos && |v.filters.productos| < Config.MaxProductFilters ==>
      r == Step(AplicarFiltrosLocales(v.(filters := v.filters.(productos := v.filters.productos + {valor}))), [])
    ensures valor !in v.filters.productos && |v.filters.productos| >= Config.MaxProductFilters ==>
      r == Step(v, [MaxProductsAlert])
    ensures |v.filters.productos| <= Config.MaxProductFilters ==> |r.view.filters.productos| <= Config.MaxProductFilters
    ensures r.view.filters.estado == v.filters.estado
  {
    var productos := v.filters.productos;
    if valor in productos then
      Step(AplicarFiltrosLocales(v.(filters := v.filters.(productos := productos - {valor}))), [])
    else if |productos| < Config.MaxProductFilters then
      Step(AplicarFiltrosLocales(v.(filters := v.filters.(productos := productos + {valor}))), [])
    else
      Step(v, [MaxProductsAlert])
  }

  /** A click on a state: choosing the active one clears it, any other becomes the only one. */
  function ToggleEstado(v: View, valor: string): (r: View)
    ensures r.filters.productos == v.filters.productos
    ensures v.filters.estado == valor ==> r.filters.estado == ""
    ensures v.filters.estado != valor ==> r.filters.estado == valor
    ensures r == AplicarFiltrosLocales(v.(filters := r.filters))
  {
    var estado := if v.filters.estado == valor then "" else valor;
    AplicarFiltrosLocales(v.(filters := v.filters.(estado := estado)))
  }

  /** The filter menu's click handler; a menu entry of any other kind only re-applies the filters. */
  function OnFilterClick(v: View, filtro: string, valor: string): (r: Step)
    ensures filtro == "producto" ==> r == ToggleProducto(v, valor)
    ensures filtro == "estado" ==> r == Step(ToggleEstado(v, valor), [])
    ensures filtro != "producto" && filtro != "estado" ==> r == Step(AplicarFiltrosLocales(v), [])
  {
    if filtro == "producto" then ToggleProducto(v, valor)
    else if filtro == "estado" then Step(ToggleEstado(v, valor), [])
    else Step(AplicarFiltrosLocales(v), [])
  }

  /** Removing a chip: a product chip drops that product, a state chip clears the state; then the filters apply. */
  function RemoveChip(v: View, tipo: string, valor: string): (r: View)
    ensures tipo == "producto" ==> r.filters == Filters(v.filters.productos - {valor}, v.filters.estado)
    ensures tipo == "estado" ==> r.filters == Filters(v.filters.productos, "")
    ensures tipo != "producto" && tipo != "estado" ==> r.filters == v.filters
    ensures |r.filters.productos| <= |v.filters.productos|
    ensures r == AplicarFiltrosLocales(v.(filters := r.filters))
  {
    var f := v.filters;
    var f' := if tipo == "producto" then f.(productos := f.productos - {valor})
      else if tipo == "estado" then f.(estado := "")
      else f;
    AplicarFiltrosLocales(v.(filters := f'))
  }

  /** Selecting a new product and then clicking it again restores the filters. */
  lemma ToggleProductoTwice(v: View, valor: string)
    requires valor !in v.filters.productos && |v.filters.productos| < Config.MaxProductFilters
    ensures ToggleProducto(ToggleProducto(v, valor).view, valor).view.filters == v.filters
  {
    assert v.filters.productos + {valor} - {valor} == v.filters.productos;
  }

  /**
   Clicking the same state entry twice re-applies the original filters
   exactly when no state, or that very state, was selected before.
   */
  lemma ToggleEstadoTwice(v: View, valor: string)
    ensures ToggleEstado(ToggleEstado(v, valor), valor) == AplicarFiltrosLocales(v) <==>
      v.filters.estado == "" || v.filters.estado == valor
  {
    var w := ToggleEstado(v, valor);
    var u := ToggleEstado(w, valor);
    if v.filters.estado == "" || v.filters.estado == valor {
      assert u.filters == v.filters;
    }
  }

  /**
   Removing the chip of an entry just picked from the filter menu undoes the
   click: a new product below the cap, or a state when none was selected.
   */
  lemma ChipUndoesClick(v: View, valor: string)
    ensures valor !in v.filters.productos && |v.filters.productos| < Config.MaxProductFilters ==>
      RemoveChip(OnFilterClick(v, "producto", valor).view, "producto", valor) == AplicarFiltrosLocales(v)
    ensures v.filters.estado == "" ==>
      RemoveChip(OnFilterClick(v, "estado", valor).view, "estado", valor) == AplicarFiltrosLocales(v)
  {
    if valor !in v.filters.productos && |v.filters.productos| < Config.MaxProductFilters {
      assert v.filters.productos + {valor} - {valor} == v.filters.productos;
    }
  }

  /**
   `limpiarFiltros`: with no records nothing happens; otherwise both date
   inputs and both filters are cleared, every record is shown, page 1.
   */
  function LimpiarFiltros(v: View): (r: View)
    ensures |v.registros| == 0 ==> r == v
    ensures |v.registros| > 0 ==>
      && r.registros == v.registros && r.filtered == v.registros && r.page == 1
      && r.filters == Filters({}, "") && r.fechaInicio == "" && r.fechaFin == ""
  {
    if |v.registros| == 0 then v
    else View(v.registros, v.registros, 1, Filters({}, ""), "", "")
  }

  /** Clearing the filters shows what applying no filter shows. */
  lemma LimpiarIsApplyingNoFilter(v: View)
    requires |v.registros| > 0
    ensures LimpiarFiltros(v) == AplicarFiltrosLocales(v.(filters := Filters({}, ""), fechaInicio := "", fechaFin := ""))
  {
  }

  // ---------------------------------------------------------------------------
  // Pagination
  // ---------------------------------------------------------------------------

  function Min(a: int, b: int): int {
    if a <= b then a else b
  }

  /** An index argument of `Array.prototype.slice`: negative counts from the end, both clamped to the length. */
  function SliceIndex(i: int, len: nat): (r: nat)
    ensures r <= len
    ensures 0 <= i ==> r == Min(i, len)
  {
    if i < 0 then (if len + i < 0 then 0 else len + i) else Min(i, len)
  }

  /** `s.slice(start, end)`. */
  function JsSlice<T>(s: seq<T>, start: int, end: int): seq<T> {
    var a, b := SliceIndex(start, |s|), SliceIndex(end, |s|);
    if a < b then s[a..b] else []
  }

  /** The rows `renderizarRegistros` shows for a page. */
  function PageRows<T>(filtered: seq<T>, page: int): (r: seq<T>)
    ensures |r| <= Config.PageSize
    ensures page >= 1 ==>
      r == filtered[Min((page - 1) * Config.PageSize, |filtered|)..Min(page * Config.PageSize, |filtered|)]
  {
    var start := (page - 1) * Config.PageSize;
    JsSlice(filtered, start, start + Config.PageSize)
  }

  /** `Math.ceil(n / 10)`. */
  function TotalPages(n: nat): (t: nat)
    ensures t == 0 <==> n == 0
    ensures n > 0 ==> (t - 1) * Config.PageSize < n <= t * Config.PageSize
  {
    (n + Config.PageSize - 1) / Config.PageSize
  }

  /**
   Every filtered record is on exactly one page in range: record k is at
   position k % 10 of page k / 10 + 1, and outside the slice of every other page.
   */
  lemma PagesCoverRecords<T>(filtered: seq<T>, k: nat)
    requires k < |filtered|
    ensures var p := k / Config.PageSize + 1;
      && 1 <= p <= TotalPages(|filtered|)
      && k % Config.PageSize < |PageRows(filtered, p)|
      && PageRows(filtered, p)[k % Config.PageSize] == filtered[k]
    ensures forall p :: 1 <= p && p != k / Config.PageSize + 1 ==> !OnPage(k, p, |filtered|)
  {
    var p := k / Config.PageSize + 1;
    assert (p - 1) * Config.PageSize + k % Config.PageSize == k;
  }

  /** Record index `k` falls in the slice page `p` shows of `n` records. */
  predicate OnPage(k: nat, p: int, n: nat) {
    Min((p - 1) * Config.PageSize, n) <= k < Min(p * Config.PageSize, n)
  }

  /** `updatePaginationControls`: the states of the previous and next buttons. */
  datatype Controls = Controls(prevDisabled: bool, nextDisabled: bool)

  function PaginationControls(page: int, n: nat): (c: Controls)
    ensures c.prevDisabled <==> page <= 1
    ensures c.nextDisabled <==> page * Config.PageSize >= n
  {
    Controls(page <= 1, page >= TotalPages(n))
  }

  /**
   `cambiarPagina`: move by `delta`, then clamp to at least 1 and at most the
   page count; with no records the page count is 0 and so is the page.
   */
  function CambiarPagina(v: View, delta: int): (r: View)
    ensures r == v.(page := r.page)
    ensures |v.filtered| > 0 ==> 1 <= r.page <= TotalPages(|v.filtered|)
    ensures |v.filtered| == 0 ==> r.page == 0
    ensures 1 <= v.page + delta <= TotalPages(|v.filtered|) ==> r.page == v.page + delta
  {
    var total := TotalPages(|v.filtered|);
    var p := v.page + delta;
    var p := if p < 1 then 1 else p;
    var p := if p > total then total else p;
    v.(page := p)
  }

  // ---------------------------------------------------------------------------
  // CSV export
  // ---------------------------------------------------------------------------

  const CsvHeaders: seq<string> :=
    ["ID", "Producto", "Referencia", "Descripci\U{00F3}n", "Precio", "Precio Final", "Fecha", "Hora"]

  /** The header line has eight columns, none holding a comma or line break. */
  lemma CsvHeaderColumns()
    ensures |CsvHeaders| == 8
    ensures Split(Join(CsvHeaders, ","), ',') == CsvHeaders
    ensures '\n' !in Join(CsvHeaders, ",")
  {
    assert forall i :: 0 <= i < |CsvHeaders| ==> ',' !in CsvHeaders[i] && '\n' !in CsvHeaders[i];
    SplitJoin(CsvHeaders, ',');
    JoinAvoids(CsvHeaders, ",", '\n');
  }

  /** Joining parts free of `c` with a separator free of `c` gives a text free of `c`. */
  lemma {:induction false} JoinAvoids(parts: seq<string>, sep: string, c: char)
    requires c !in sep
    requires forall i :: 0 <= i < |parts| ==> c !in parts[i]
    ensures c !in Join(parts, sep)
    decreases |parts|
  {
    if |parts| > 1 {
      JoinAvoids(parts[1..], sep, c);
    }
  }

  lemma {:induction false} JoinAppend(a: seq<string>, b: seq<string>, sep: string)
    requires |a| >= 1 && |b| >= 1
    ensures Join(a + b, sep) == Join(a, sep) + sep + Join(b, sep)
    decreases |a|
  {
    if |a| == 1 {
      assert (a + b)[1..] == b;
    } else {
      assert (a + b)[1..] == a[1..] + b;
      JoinAppend(a[1..], b, sep);
    }
  }

  /** `QuoteField` on each text. */
  function QuoteAll(fields: seq<string>): (r: seq<string>)
    ensures |r| == |fields| && forall k :: 0 <= k < |fields| ==> r[k] == QuoteField(fields[k])
  {
    if |fields| == 0 then [] else [QuoteField(fields[0])] + QuoteAll(fields[1..])
  }

  /**
   Reads `n` quoted fields separated by commas from the front of `t`: the
   fields' contents and what follows the last closing quote.
   */
  function ReadQuotedFields(t: string, n: nat): Option2<seq<string>, string>
    decreases n
  {
    if n == 0 then Some2([], t)
    else if |t| == 0 || t[0] != '"' then None2
    else match ReadQuoted(t[1..])
      case None2 => None2
      case Some2(field, rest) =>
        if n == 1 then Some2([field], rest)
        else if |rest| == 0 || rest[0] != ',' then None2
        else match ReadQuotedFields(rest[1..], n - 1)
          case None2 => None2
          case Some2(fields, after) => Some2([field] + fields, after)
  }

  /** Quoted fields joined by commas read back as exactly those fields, whatever they contain. */
  lemma {:induction false} ReadQuotedFieldsJoin(fields: seq<string>, rest: string)
    requires |fields| >= 1
    requires |rest| == 0 || rest[0] == ','
    ensures ReadQuotedFields(Join(QuoteAll(fields), ",") + rest, |fields|) == Some2(fields, rest)
    decreases |fields|
  {
    var q := QuoteAll(fields);
    var f := fields[0];
    if |fields| == 1 {
      assert Join(q, ",") == QuoteField(f);
      ReadLastQuoted(f, rest);
      assert fields == [f];
    } else {
      var tail := Join(q[1..], ",") + rest;
      assert q[1..] == QuoteAll(fields[1..]);
      ReadQuotedFieldsJoin(fields[1..], rest);
      ReadQuotedThen(f, tail, |fields|, fields[1..], rest);
      JoinFirst(q, ",", rest);
      assert [f] + fields[1..] == fields;
    }
  }

  /** Reading the last quoted field: its content, then the text after its closing quote. */
  lemma ReadLastQuoted(f: string, after: string)
    requires |after| == 0 || after[0] == ','
    ensures ReadQuotedFields(QuoteField(f) + after, 1) == Some2([f], after)
  {
    var t := QuoteField(f) + after;
    assert t[1..] == DoubleQuotes(f) + "\"" + after;
    ReadQuotedDoubleQuotes(f, after);
  }

  /** Reading a quoted field followed by a comma and `n - 1` more fields. */
  lemma ReadQuotedThen(f: string, tail: string, n: nat, fields: seq<string>, last: string)
    requires n >= 2
    requires ReadQuotedFields(tail, n - 1) == Some2(fields, last)
    ensures ReadQuotedFields(QuoteField(f) + "," + tail, n) == Some2([f] + fields, last)
  {
    var after := "," + tail;
    var t := QuoteField(f) + "," + tail;
    assert t == QuoteField(f) + after;
    assert t[1..] == DoubleQuotes(f) + "\"" + after;
    ReadQuotedDoubleQuotes(f, after);
    assert after[1..] == tail;
  }

  /** A cell whose text is quoted: `.replace` exists on strings only, anything else throws. */
  function QuotedText(v: Value): Option<string> {
    if v.Str? then Some(v.s) else None
  }

  /**
   The eight cells of a record's CSV line: id, the three quoted text fields
   (description defaulting to ""), prices, date, time; none when one of the
   text fields is not a string.
   */
  function CsvCells(reg: Registro): (r: Option<seq<string>>)
    ensures r.Some? <==> reg.producto.Str? && reg.referencia.Str? && Or(reg.descripcion, Str("")).Str?
    ensures r.Some? ==>
      && |r.value| == 8
      && r.value[1..4] == QuoteAll([reg.producto.s, reg.referencia.s, Or(reg.descripcion, Str("")).s])
  {
    var p, ref, d := QuotedText(reg.producto), QuotedText(reg.referencia), QuotedText(Or(reg.descripcion, Str("")));
    if p.None? || ref.None? || d.None? then None
    else
      var quoted := QuoteAll([p.value, ref.value, d.value]);
      Some([CellText(reg.id)] + quoted + [CellText(reg.precio), CellText(reg.precioFinal), reg.fecha, reg.hora])
  }

  /** One CSV line: the cells joined by commas. */
  function CsvRow(reg: Registro): Option<string> {
    match CsvCells(reg)
    case None => None
    case Some(cells) => Some(Join(cells, ","))
  }

  /**
   A CSV line reads back: when the id's text holds no comma, the three quoted
   fields after it parse back to product, reference and description.
   */
  lemma CsvRowReadBack(reg: Registro)
    requires CsvRow(reg).Some?
    requires ',' !in CellText(reg.id)
    ensures var row, idText := CsvRow(reg).value, CellText(reg.id);
      && |idText| < |row| && row[..|idText|] == idText && row[|idText|] == ','
      && ReadQuotedFields(row[|idText| + 1..], 3).Some2?
      && ReadQuotedFields(row[|idText| + 1..], 3).first
         == [reg.producto.s, reg.referencia.s, Or(reg.descripcion, Str("")).s]
  {
    var cells := CsvCells(reg).value;
    var fields := [reg.producto.s, reg.referencia.s, Or(reg.descripcion, Str("")).s];
    var row := Join(cells, ",");
    var idText := cells[0];
    assert cells[1..] == cells[1..4] + cells[4..];
    JoinAppend(cells[1..4], cells[4..], ",");
    var rest := "," + Join(cells[4..], ",");
    assert row == idText + "," + (Join(QuoteAll(fields), ",") + rest);
    assert row[|idText| + 1..] == Join(QuoteAll(fields), ",") + rest;
    ReadQuotedFieldsJoin(fields, rest);
  }

  /** The outcome of the export: nothing to export, the file's text, or a TypeError from a record. */
  datatype Export = NothingToExport(alert: Alert) | Csv(content: string) | ExportThrew

  /** The CSV lines of the records, or none when some record's text fields are not strings. */
  function CsvRows(filtered: seq<Registro>): (r: Option<seq<string>>)
    ensures r.Some? <==> forall k :: 0 <= k < |filtered| ==> CsvRow(filtered[k]).Some?
    ensures r.Some? ==> |r.value| == |filtered| && forall k :: 0 <= k < |filtered| ==> Some(r.value[k]) == CsvRow(filtered[k])
  {
    if |filtered| == 0 then Some([])
    else match CsvRow(filtered[0])
      case None => None
      case Some(line) =>
        match CsvRows(filtered[1..])
        case None =>
          assert forall k :: 1 <= k < |filtered| ==> filtered[k] == filtered[1..][k - 1];
          None
        case Some(lines) =>
          assert forall k :: 1 <= k < |filtered| ==> filtered[k] == filtered[1..][k - 1];
          Some([line] + lines)
  }

  /**
   `exportToCSV`'s text: a warning when there is nothing to export, otherwise
   the header line and one line per record joined by line breaks.
   */
  function ExportToCSV(filtered: seq<Registro>): (r: Export)
    ensures r.NothingToExport? <==> |filtered| == 0
    ensures r.NothingToExport? ==> r.alert == Alert("No hay datos para exportar", Warning)
    ensures r.ExportThrew? <==> |filtered| > 0 && exists k :: 0 <= k < |filtered| && CsvRow(filtered[k]).None?
    ensures r.Csv? ==>
      && CsvRows(filtered).Some?
      && r.content == Join(CsvHeaders, ",") + "\n" + Join(CsvRows(filtered).value, "\n")
  {
    if |filtered| == 0 then NothingToExport(Alert("No hay datos para exportar", Warning))
    else match CsvRows(filtered)
      case None => ExportThrew
      case Some(lines) =>
        var all := [Join(CsvHeaders, ",")] + lines;
        assert all[1..] == lines;
        Csv(Join(all, "\n"))
  }

  /**
   When no record's line holds a line break, the exported text splits into
   the header line and then the records' lines in order: one line per record.
   */
  lemma ExportLines(filtered: seq<Registro>)
    requires ExportToCSV(filtered).Csv?
    requires forall k :: 0 <= k < |filtered| ==> '\n' !in CsvRow(filtered[k]).value
    ensures var lines := Split(ExportToCSV(filtered).content, '\n');
      && |lines| == |filtered| + 1
      && lines[0] == Join(CsvHeaders, ",")
      && forall k :: 0 <= k < |filtered| ==> Some(lines[k + 1]) == CsvRow(filtered[k])
  {
    var rows := CsvRows(filtered).value;
    var all := [Join(CsvHeaders, ",")] + rows;
    assert ExportToCSV(filtered).content == Join(all, "\n");
    forall k | 0 <= k < |rows|
      ensures '\n' !in rows[k] && Some(all[k + 1]) == CsvRow(filtered[k])
    {
      assert Some(rows[k]) == CsvRow(filtered[k]);
    }
    CsvHeaderColumns();
    SplitJoinAfter(Join(CsvHeaders, ","), rows, '\n');
  }

  // ---------------------------------------------------------------------------
  // filtrarRegistros
  // ---------------------------------------------------------------------------

  datatype Search = Search(view: View, alerts: seq<Alert>, request: Option<string>)

  const NoStartDateAlert: Alert := Alert("Seleccione al menos una fecha de inicio", Warning)
  const SearchErrorAlert: Alert := Alert("Error al filtrar registros", Error)

  /**
   `filtrarRegistros` given the outcome of its list fetch (`fetched`, the rows
   of `data`): without a start date only a warning; otherwise the list is
   requested for the start date to the end date (the start date when the end
   is blank), the rows become the records and the filters are re-applied. A
   failed fetch or a null row leaves the view as it was, with an error alert.
   */
  function FiltrarRegistros(v: View, fetched: Api.Fetched<seq<Value>>, engine: Engine): (r: Search)
    ensures v.fechaInicio == "" ==> r == Search(v, [NoStartDateAlert], None)
    ensures v.fechaInicio != "" ==> r.request == Some(Api.FetchVentasUrl(Str(v.fechaInicio), Str(EndDate(v))))
    ensures v.fechaInicio != "" && fetched.Failed? ==> r.view == v && r.alerts == [SearchErrorAlert]
    ensures v.fechaInicio != "" && fetched.Ok? ==>
      match MapRows(fetched.value, engine)
      case None => r.view == v && r.alerts == [SearchErrorAlert]
      case Some(registros) => r.view == AplicarFiltrosLocales(v.(registros := registros)) && r.alerts == []
  {
    if v.fechaInicio == "" then Search(v, [NoStartDateAlert], None)
    else
      var url := Some(Api.FetchVentasUrl(Str(v.fechaInicio), Str(EndDate(v))));
      match fetched
      case Failed(_) => Search(v, [SearchErrorAlert], url)
      case Ok(rows) =>
        match MapRows(rows, engine)
        case None => Search(v, [SearchErrorAlert], url)
        case Some(registros) => Search(AplicarFiltrosLocales(v.(registros := registros)), [], url)
  }

  /** `fechaFin.value || fechaInicio`. */
  function EndDate(v: View): string {
    if v.fechaFin != "" then v.fechaFin else v.fechaInicio
  }

  /**
   A search asks for both dates: the start date, and the end date or, when
   that is blank, the start date again.
   */
  lemma SearchQuery(v: View, target: string)
    requires v.fechaInicio != ""
    ensures Api.QueryParams(target, Str(v.fechaInicio), Str(EndDate(v)))
      == ["target=" + Api.EncodeUriComponent(target), "startDate=" + v.fechaInicio, "endDate=" + EndDate(v)]
  {
  }

  /** After a search every shown record's settlement cell is truthy, so the state filter sees 'No' for a blank one. */
  lemma SearchSettlementDefault(v: View, rows: seq<Value>, engine: Engine)
    requires v.fechaInicio != "" && MapRows(rows, engine).Some?
    ensures forall k :: 0 <= k < |FiltrarRegistros(v, Api.Ok(rows), engine).view.registros| ==>
      Truthy(FiltrarRegistros(v, Api.Ok(rows), engine).view.registros[k].liquidado)
  {
    var registros := MapRows(rows, engine).value;
    forall k | 0 <= k < |registros|
      ensures Truthy(registros[k].liquidado)
    {
      MapRowsPointwise(rows, engine, k);
    }
  }
}
