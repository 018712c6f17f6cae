/**
 The shared helpers: local date and time stamps for new sales, the display
 form of a stored date, and the pending-sales list kept in the browser's
 local storage under one key.
 */
module Utils {
  import opened Text
  import opened JsValues
  import opened Sales
  import Config

  // ---------------------------------------------------------------------------
  // Date and time stamps
  // ---------------------------------------------------------------------------

  /** The fields a local `Date` reports: `getFullYear`, `getMonth` (0-based), `getDate`, `getHours`, `getMinutes`. */
  datatype LocalDateTime = LocalDateTime(year: int, month0: nat, day: nat, hours: nat, minutes: nat)

  /** The ranges a `Date` object guarantees for its calendar and clock fields. */
  type DateTime = d: LocalDateTime | d.month0 < 12 && 1 <= d.day <= 31 && d.hours < 24 && d.minutes < 60
    witness LocalDateTime(2000, 0, 1, 0, 0)

  /** The shape `/^\d{4}-\d{2}-\d{2}$/` checks. */
  predicate IsIsoDate(s: string) {
    && |s| == 10
    && AllDigits(s[..4]) && s[4] == '-' && AllDigits(s[5..7]) && s[7] == '-' && AllDigits(s[8..])
  }

  /** The shape `/^\d{2}\/\d{2}\/\d{4}$/` checks. */
  predicate IsDisplayDate(s: string) {
    && |s| == 10
    && AllDigits(s[..2]) && s[2] == '/' && AllDigits(s[3..5]) && s[5] == '/' && AllDigits(s[6..])
  }

  lemma DigitsHaveNoSeparator(s: string, c: char)
    requires AllDigits(s) && !IsDigit(c)
    ensures c !in s
  {
  }

  lemma TwoDigitsAreDigits(n: nat)
    ensures AllDigits(TwoDigits(n)) && |TwoDigits(n)| >= 2
  {
    var s := NatToString(n);
    var t := TwoDigits(n);
    assert forall i :: |t| - |s| <= i < |t| ==> t[i] == s[i - (|t| - |s|)];
  }

  /** A decimal year between 1000 and 9999 is written with exactly four digits. */
  lemma FourDigitYear(y: nat)
    requires 1000 <= y <= 9999
    ensures |NatToString(y)| == 4
  {
    var s := NatToString(y);
    ParseNatBound(s);
    if |s| <= 3 {
      PowMonotone(|s|, 3);
    }
    if |s| >= 5 {
      ParseNatFront(s);
      assert DigitValue(s[0]) >= 1;
      PowMonotone(4, |s| - 1);
    }
  }

  lemma {:induction false} PowMonotone(a: nat, b: nat)
    requires a <= b
    ensures Pow10(a) <= Pow10(b)
    decreases b
  {
    if a < b {
      PowMonotone(a, b - 1);
    }
  }

  /**
   `formatDateLocal`: year, 1-based month and day joined by '-', month and day
   padded to two digits. For a year of four digits the stamp has the ISO shape
   and its three fields read back as the date's own fields.
   */
  function FormatDateLocal(d: DateTime): (r: string)
    ensures d.year >= 0 ==> Split(r, '-') == [NatToString(d.year), TwoDigits(d.month0 + 1), TwoDigits(d.day)]
    ensures 1000 <= d.year <= 9999 ==>
      && IsIsoDate(r)
      && ParseNat(r[..4]) == d.year && ParseNat(r[5..7]) == d.month0 + 1 && ParseNat(r[8..]) == d.day
  {
    DateStampParts(d);
    DateStampIso(d);
    IntToString(d.year) + "-" + TwoDigits(d.month0 + 1) + "-" + TwoDigits(d.day)
  }

  /** The stamp of a non-negative year splits on '-' into year, padded month and padded day. */
  lemma DateStampParts(d: DateTime)
    ensures var r := IntToString(d.year) + "-" + TwoDigits(d.month0 + 1) + "-" + TwoDigits(d.day);
      d.year >= 0 ==> Split(r, '-') == [NatToString(d.year), TwoDigits(d.month0 + 1), TwoDigits(d.day)]
  {
    if d.year >= 0 {
      var y, m, dd := NatToString(d.year), TwoDigits(d.month0 + 1), TwoDigits(d.day);
      TwoDigitsAreDigits(d.month0 + 1);
      TwoDigitsAreDigits(d.day);
      DigitsHaveNoSeparator(y, '-');
      DigitsHaveNoSeparator(m, '-');
      DigitsHaveNoSeparator(dd, '-');
      SplitThree(y, m, dd, '-');
    }
  }

  /** For a four-digit year the stamp has the ISO shape and its fields read back as the date's. */
  lemma DateStampIso(d: DateTime)
    ensures var r := IntToString(d.year) + "-" + TwoDigits(d.month0 + 1) + "-" + TwoDigits(d.day);
      1000 <= d.year <= 9999 ==>
        && IsIsoDate(r)
        && ParseNat(r[..4]) == d.year && ParseNat(r[5..7]) == d.month0 + 1 && ParseNat(r[8..]) == d.day
  {
    if 1000 <= d.year <= 9999 {
      var y, m, dd := NatToString(d.year), TwoDigits(d.month0 + 1), TwoDigits(d.day);
      var r := IntToString(d.year) + "-" + m + "-" + dd;
      FourDigitYear(d.year);
      TwoDigitsRoundTrip(d.month0 + 1);
      TwoDigitsRoundTrip(d.day);
      assert r[..4] == y && r[5..7] == m && r[8..] == dd;
    }
  }

  /** `formatTimeLocal`: hours and minutes, each padded to two digits, joined by ':'. */
  function FormatTimeLocal(d: DateTime): (r: string)
    ensures |r| == 5 && r[2] == ':'
    ensures AllDigits(r[..2]) && AllDigits(r[3..])
    ensures ParseNat(r[..2]) == d.hours && ParseNat(r[3..]) == d.minutes
  {
    TwoDigitsRoundTrip(d.hours);
    TwoDigitsRoundTrip(d.minutes);
    var r := TwoDigits(d.hours) + ":" + TwoDigits(d.minutes);
    assert r[..2] == TwoDigits(d.hours) && r[3..] == TwoDigits(d.minutes);
    r
  }

  /** Template-literal rendering of a destructured part that may be missing. */
  function PartText(parts: seq<string>, k: nat): string {
    if k < |parts| then parts[k] else "undefined"
  }

  /**
   `formatDisplayDate`: a falsy input has no date; a string is split on '-' and
   its first three parts are reordered as day/month/year; any other truthy
   value has no `split`, and the thrown error is reported as an invalid date.
   */
  function FormatDisplayDate(v: Value): (r: string)
    ensures !Truthy(v) ==> r == "Fecha no disponible"
    ensures Truthy(v) && !v.Str? ==> r == "Fecha inv\U{00E1}lida"
    ensures v.Str? && v.s != "" ==>
      var parts := Split(v.s, '-');
      r == PartText(parts, 2) + "/" + PartText(parts, 1) + "/" + parts[0]
  {
    if !Truthy(v) then "Fecha no disponible"
    else if v.Str? then
      var parts := Split(v.s, '-');
      PartText(parts, 2) + "/" + PartText(parts, 1) + "/" + PartText(parts, 0)
    else "Fecha inv\U{00E1}lida"
  }

  /** A stamp from `formatDateLocal` is redisplayed as day/month/year, DD/MM/YYYY for four-digit years. */
  lemma DisplayOfLocalDate(d: DateTime)
    requires d.year >= 0
    ensures FormatDisplayDate(Str(FormatDateLocal(d)))
      == TwoDigits(d.day) + "/" + TwoDigits(d.month0 + 1) + "/" + NatToString(d.year)
    ensures 1000 <= d.year <= 9999 ==> IsDisplayDate(FormatDisplayDate(Str(FormatDateLocal(d))))
  {
    var y, m, dd := NatToString(d.year), TwoDigits(d.month0 + 1), TwoDigits(d.day);
    DateStampParts(d);
    assert Split(FormatDateLocal(d), '-') == [y, m, dd];
    if 1000 <= d.year <= 9999 {
      FourDigitYear(d.year);
      TwoDigitsRoundTrip(d.month0 + 1);
      TwoDigitsRoundTrip(d.day);
      DisplayShape(dd, m, y);
    }
  }

  /** Two digits, two digits and four digits joined by '/' have the DD/MM/YYYY shape. */
  lemma DisplayShape(dd: string, m: string, y: string)
    requires |dd| == 2 && |m| == 2 && |y| == 4 && AllDigits(dd) && AllDigits(m) && AllDigits(y)
    ensures IsDisplayDate(dd + "/" + m + "/" + y)
  {
    var r := dd + "/" + m + "/" + y;
    assert r[..2] == dd && r[3..5] == m && r[6..] == y;
  }

  // ---------------------------------------------------------------------------
  // The pending-sales store
  // ---------------------------------------------------------------------------

  /** What a local-storage key holds: a list that parses, or text that does not (including ""). */
  datatype Stored = Unreadable | Saved(list: seq<Sale>)

  /** Local storage: text entries by key. */
  type Storage = map<string, Stored>

  /** `getPendingVentas`: the stored list, or [] when the key is missing or its text does not parse. */
  function GetPendingVentas(store: Storage): (r: seq<Sale>)
    ensures Config.PendingKey !in store ==> r == []
    ensures Config.PendingKey in store && store[Config.PendingKey].Unreadable? ==> r == []
  {
    if Config.PendingKey in store && store[Config.PendingKey].Saved? then store[Config.PendingKey].list
    else []
  }

  /**
   `savePendingVentas`: overwrites the whole list under the one key; reading it
   back gives the list written. When the write throws (storage full or
   disabled) the error is swallowed and nothing changes.
   */
  function SavePendingVentas(store: Storage, list: seq<Sale>, writable: bool): (r: Storage)
    ensures writable ==> GetPendingVentas(r) == list
    ensures !writable ==> r == store
    ensures forall k :: k != Config.PendingKey ==> (k in r <==> k in store)
    ensures forall k :: k != Config.PendingKey && k in store ==> r[k] == store[k]
  {
    if writable then store[Config.PendingKey := Saved(list)] else store
  }

  /** A later write replaces an earlier one: the store keeps one whole list, not a log. */
  lemma SaveOverwrites(store: Storage, a: seq<Sale>, b: seq<Sale>)
    ensures SavePendingVentas(SavePendingVentas(store, a, true), b, true) == SavePendingVentas(store, b, true)
  {
  }
}
