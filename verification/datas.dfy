/**
 Validity dates of the licence map: `parseDataBR` reads a `dd/mm/aaaa` string
 with `split("/")` and `parseInt(·, 10)` and builds `new Date(ano, mes - 1, dia)`;
 `classeValidade` compares that date with today, both at local midnight, in
 whole days.

 Dates are day numbers counted from 1970-01-01 (ECMAScript's `Day(t)`), so the
 millisecond arithmetic of the source becomes integer arithmetic on days.
 */
module Datas {
  import opened Opcoes
  import opened Texto

  // ---------------------------------------------------------------------------
  // parseInt(s, 10)

  predicate IsDigit(c: char) {
    '0' <= c <= '9'
  }

  predicate AllDigits(s: string) {
    forall i :: 0 <= i < |s| ==> IsDigit(s[i])
  }

  /** The value of a decimal digit (0 for any other character). */
  function DigitValue(c: char): (n: nat)
    ensures n < 10
  {
    if IsDigit(c) then c as int - '0' as int else 0
  }

  /** How many decimal digits `s` starts with. */
  function DigitCount(s: string): (n: nat)
    ensures n <= |s|
  {
    if |s| > 0 && IsDigit(s[0]) then 1 + DigitCount(s[1..]) else 0
  }

  /** The longest prefix of `s` made of decimal digits. */
  function DigitPrefix(s: string): (p: string)
    ensures |p| <= |s|
  {
    s[..DigitCount(s)]
  }

  lemma {:induction false} DigitCountSpec(s: string)
    ensures forall i :: 0 <= i < DigitCount(s) ==> IsDigit(s[i])
    ensures DigitCount(s) < |s| ==> !IsDigit(s[DigitCount(s)])
  {
    if |s| > 0 && IsDigit(s[0]) {
      DigitCountSpec(s[1..]);
      assert forall i :: 1 <= i < DigitCount(s) ==> s[i] == s[1..][i - 1];
    }
  }

  /** `DigitPrefix` is the longest all-digit prefix: the next character, if any, is not a digit. */
  lemma {:induction false} DigitPrefixSpec(s: string)
    ensures DigitPrefix(s) == s[..|DigitPrefix(s)|]
    ensures AllDigits(DigitPrefix(s))
    ensures |DigitPrefix(s)| < |s| ==> !IsDigit(s[|DigitPrefix(s)|])
  {
    DigitCountSpec(s);
  }

  /** The value of a decimal numeral, most significant digit first. */
  function DigitsValue(ds: string): nat {
    DigitsFrom(0, ds)
  }

  /** Horner's rule: the value of `acc` followed by the digits `ds`. */
  function DigitsFrom(acc: nat, ds: string): nat
    decreases |ds|
  {
    if |ds| == 0 then acc else DigitsFrom(10 * acc + DigitValue(ds[0]), ds[1..])
  }

  /** One more digit at the end multiplies the value so far by ten. */
  lemma {:induction false} DigitsFromSnoc(acc: nat, ds: string, d: char)
    ensures DigitsFrom(acc, ds + [d]) == 10 * DigitsFrom(acc, ds) + DigitValue(d)
    decreases |ds|
  {
    if |ds| > 0 {
      assert (ds + [d])[0] == ds[0];
      assert (ds + [d])[1..] == ds[1..] + [d];
      DigitsFromSnoc(10 * acc + DigitValue(ds[0]), ds[1..], d);
    } else {
      assert ds + [d] == [d];
    }
  }

  /**
   `parseInt(s, 10)`, with `None` standing for NaN: skip leading whitespace,
   take an optional sign, then the longest run of digits; no digit is NaN.
   */
  function ParseInt(s: string): Option<int> {
    ParseSigned(TrimStart(s))
  }

  /** `parseInt` after the leading whitespace: an optional sign, then a numeral. */
  function ParseSigned(u: string): Option<int> {
    if |u| > 0 && u[0] == '-' then
      match Numeral(u[1..])
      case None => None
      case Some(n) => Some(-n)
    else if |u| > 0 && u[0] == '+' then Numeral(u[1..])
    else Numeral(u)
  }

  /** The value of the longest run of digits at the start of `b`; NaN when there is none. */
  function Numeral(b: string): Option<int> {
    var ds := DigitPrefix(b);
    if ds == "" then None else Some(DigitsValue(ds))
  }

  /** The decimal numeral of `n`, without leading zeros. */
  function ShowNat(n: nat): (s: string)
    ensures |s| >= 1 && AllDigits(s)
  {
    if n < 10 then [('0' as int + n) as char]
    else ShowNat(n / 10) + [('0' as int + n % 10) as char]
  }

  /** Two digits for a day or month below ten, as in `05/03/2025`. */
  function Pad2(n: nat): (s: string)
    ensures |s| >= 1 && AllDigits(s)
  {
    if n < 10 then "0" + ShowNat(n) else ShowNat(n)
  }

  lemma {:induction false} ShowNatValue(n: nat)
    ensures DigitsValue(ShowNat(n)) == n
  {
    if n >= 10 {
      ShowNatValue(n / 10);
      DigitsFromSnoc(0, ShowNat(n / 10), ('0' as int + n % 10) as char);
    } else {
      var c := ('0' as int + n) as char;
      assert ShowNat(n) == [c] && [c][1..] == "";
      assert DigitValue(c) == n;
      assert DigitsFrom(0, [c]) == DigitsFrom(n, "");
    }
  }

  lemma {:induction false} LeadingZeroValue(ds: string)
    requires AllDigits(ds)
    ensures AllDigits("0" + ds) && DigitsValue("0" + ds) == DigitsValue(ds)
  {
    assert ("0" + ds)[1..] == ds;
    assert forall i :: 1 <= i < |"0" + ds| ==> ("0" + ds)[i] == ds[i - 1];
  }

  lemma {:induction false} Pad2Value(n: nat)
    ensures DigitsValue(Pad2(n)) == n
  {
    ShowNatValue(n);
    if n < 10 {
      LeadingZeroValue(ShowNat(n));
    }
  }

  lemma {:induction false} DigitPrefixOf(ds: string, rest: string)
    requires AllDigits(ds)
    requires |rest| == 0 || !IsDigit(rest[0])
    ensures DigitPrefix(ds + rest) == ds
  {
    DigitCountOf(ds, rest);
    assert (ds + rest)[..|ds|] == ds;
  }

  lemma {:induction false} DigitCountOf(ds: string, rest: string)
    requires AllDigits(ds)
    requires |rest| == 0 || !IsDigit(rest[0])
    ensures DigitCount(ds + rest) == |ds|
    decreases |ds|
  {
    if |ds| > 0 {
      DigitCountOf(ds[1..], rest);
      assert (ds + rest)[1..] == ds[1..] + rest;
      assert (ds + rest)[0] == ds[0];
    } else {
      assert ds + rest == rest;
    }
  }

  /** A numeral followed by nothing or by a non-digit parses to its value. */
  lemma {:induction false} ParseIntNumeral(ds: string, rest: string)
    requires |ds| >= 1 && AllDigits(ds)
    requires |rest| == 0 || !IsDigit(rest[0])
    ensures ParseInt(ds + rest) == Some(DigitsValue(ds))
  {
    var s := ds + rest;
    assert s[0] == ds[0];
    assert !IsSpace(s[0]);
    DigitPrefixOf(ds, rest);
    TrimStartKeeps(s);
    ParseIntAt(s, s, ds);
  }

  lemma {:induction false} TrimStartKeeps(t: string)
    requires |t| > 0 && !IsSpace(t[0])
    ensures TrimStart(t) == t
  {
  }

  /** `parseInt` of a string whose first non-blank character is a digit. */
  lemma {:induction false} ParseIntAt(s: string, u: string, ds: string)
    requires TrimStart(s) == u && |u| >= 1 && IsDigit(u[0])
    requires DigitPrefix(u) == ds && |ds| >= 1
    ensures ParseInt(s) == Some(DigitsValue(ds))
  {
  }

  /** `parseInt` of a string whose first non-blank character is a minus sign. */
  lemma {:induction false} ParseIntAtMinus(s: string, u: string, ds: string)
    requires TrimStart(s) == u && |u| >= 1 && u[0] == '-'
    requires DigitPrefix(u[1..]) == ds && |ds| >= 1
    ensures ParseInt(s) == Some(-(DigitsValue(ds) as int))
  {
  }

  /** Leading whitespace and a minus sign are accepted, as `parseInt(" -12")` is -12. */
  lemma {:induction false} ParseIntNegative(ws: string, ds: string)
    requires forall i :: 0 <= i < |ws| ==> IsSpace(ws[i])
    requires |ds| >= 1 && AllDigits(ds)
    ensures ParseInt(ws + "-" + ds) == Some(-(DigitsValue(ds) as int))
  {
    var u := "-" + ds;
    TrimSpacesThenSign(ws, u);
    assert ws + "-" + ds == ws + u;
    DigitPrefixOf(ds, "");
    assert u[1..] == ds + "";
    ParseIntAtMinus(ws + u, u, ds);
  }

  lemma {:induction false} TrimSpacesThenSign(ws: string, t: string)
    requires forall i :: 0 <= i < |ws| ==> IsSpace(ws[i])
    requires |t| > 0 && !IsSpace(t[0])
    ensures TrimStart(ws + t) == t
    decreases |ws|
  {
    if |ws| > 0 {
      assert (ws + t)[1..] == ws[1..] + t;
      TrimSpacesThenSign(ws[1..], t);
    } else {
      assert ws + t == t;
    }
  }

  /** A string without digits is NaN to `parseInt`. */
  lemma {:induction false} ParseIntNoDigit(s: string)
    requires forall i :: 0 <= i < |s| ==> !IsDigit(s[i])
    ensures ParseInt(s).None?
  {
    var u := TrimStart(s);
    var body := if |u| > 0 && (u[0] == '-' || u[0] == '+') then u[1..] else u;
    if |body| > 0 {
      var j := |s| - |body|;
      assert body == s[j..];
      assert body[0] == s[j];
      assert !IsDigit(body[0]);
    }
    assert Numeral(body).None?;
  }

  // ---------------------------------------------------------------------------
  // The ECMAScript calendar: proleptic Gregorian days from 1970-01-01

  predicate IsLeapYear(y: int) {
    y % 4 == 0 && (y % 100 != 0 || y % 400 == 0)
  }

  function DaysInYear(y: int): int {
    if IsLeapYear(y) then 366 else 365
  }

  function DaysInMonth(y: int, m: int): (n: int)
    requires 0 <= m < 12
    ensures 28 <= n <= 31
  {
    if m == 1 then (if IsLeapYear(y) then 29 else 28)
    else if m == 3 || m == 5 || m == 8 || m == 10 then 30
    else 31
  }

  /** Days of year `y` before month `m` (0-based). */
  function MonthStart(y: int, m: int): (n: int)
    requires 0 <= m <= 12
    ensures 28 * m <= n <= 31 * m
  {
    if m == 0 then 0 else MonthStart(y, m - 1) + DaysInMonth(y, m - 1)
  }

  /** ECMAScript `DayFromYear`: the day number of January 1 of year `y`. */
  function DayFromYear(y: int): int {
    365 * (y - 1970) + (y - 1969) / 4 - (y - 1901) / 100 + (y - 1601) / 400
  }

  /**
   ECMAScript `MakeDay(year, month, date)`: months past December or before
   January carry into the year, and days past the end of a month carry into
   the following months.
   */
  function MakeDay(year: int, month: int, date: int): int {
    var ym := year + month / 12;
    var mn := month % 12;
    DayFromYear(ym) + MonthStart(ym, mn) + date - 1
  }

  /** Reference day count: add up whole years from 1970, one at a time. */
  function DaysBeforeYear(y: int): int
    decreases if y < 1970 then 1970 - y else y - 1970
  {
    if y == 1970 then 0
    else if y > 1970 then DaysBeforeYear(y - 1) + DaysInYear(y - 1)
    else DaysBeforeYear(y + 1) - DaysInYear(y)
  }

  /** All twelve months together make up the year. */
  lemma {:induction false} MonthsMakeYear(y: int)
    ensures MonthStart(y, 12) == DaysInYear(y)
  {
    assert MonthStart(y, 2) == 31 + DaysInMonth(y, 1);
    assert MonthStart(y, 3) == MonthStart(y, 2) + 31;
    assert MonthStart(y, 4) == MonthStart(y, 3) + 30;
    assert MonthStart(y, 5) == MonthStart(y, 4) + 31;
    assert MonthStart(y, 6) == MonthStart(y, 5) + 30;
    assert MonthStart(y, 7) == MonthStart(y, 6) + 31;
    assert MonthStart(y, 8) == MonthStart(y, 7) + 31;
    assert MonthStart(y, 9) == MonthStart(y, 8) + 30;
    assert MonthStart(y, 10) == MonthStart(y, 9) + 31;
    assert MonthStart(y, 11) == MonthStart(y, 10) + 30;
  }

  lemma {:induction false} LeapStep4(y: int)
    ensures ((y + 1) - 1969) / 4 - (y - 1969) / 4 == if y % 4 == 0 then 1 else 0
  {
    assert (y - 1968) % 4 == y % 4;
  }

  lemma {:induction false} LeapStep100(y: int)
    ensures ((y + 1) - 1901) / 100 - (y - 1901) / 100 == if y % 100 == 0 then 1 else 0
  {
    assert (y - 1900) % 100 == y % 100;
  }

  lemma {:induction false} LeapStep400(y: int)
    ensures ((y + 1) - 1601) / 400 - (y - 1601) / 400 == if y % 400 == 0 then 1 else 0
  {
    assert (y - 1600) % 400 == y % 400;
  }

  /** Consecutive New Year's days are 365 days apart, or 366 after a leap year. */
  lemma {:induction false} YearLength(y: int)
    ensures DayFromYear(y + 1) - DayFromYear(y) == DaysInYear(y)
  {
    LeapStep4(y);
    LeapStep100(y);
    LeapStep400(y);
    DivisibleChain(y);
    var d := DayFromYear(y + 1) - DayFromYear(y);
    assert d == 365 + (if y % 4 == 0 then 1 else 0) - (if y % 100 == 0 then 1 else 0)
      + (if y % 400 == 0 then 1 else 0);
  }

  lemma {:induction false} DivisibleChain(y: int)
    ensures y % 400 == 0 ==> y % 100 == 0
    ensures y % 100 == 0 ==> y % 4 == 0
  {
    if y % 400 == 0 {
      var q := y / 400;
      assert y == 100 * (4 * q);
    }
    if y % 100 == 0 {
      var q := y / 100;
      assert y == 4 * (25 * q);
    }
  }

  /** The closed formula agrees with counting the years one by one. */
  lemma {:induction false} DayFromYearCounts(y: int)
    ensures DayFromYear(y) == DaysBeforeYear(y)
    decreases if y < 1970 then 1970 - y else y - 1970
  {
    if y > 1970 {
      DayFromYearCounts(y - 1);
      YearLength(y - 1);
    } else if y < 1970 {
      DayFromYearCounts(y + 1);
      YearLength(y);
    }
  }

  /** The first of each month follows the first of the previous one by that month's length. */
  lemma {:induction false} MonthLength(y: int, m: int)
    requires 0 <= m < 12
    ensures MakeDay(y, m + 1, 1) - MakeDay(y, m, 1) == DaysInMonth(y, m)
  {
    if m == 11 {
      DecemberLength(y);
    } else {
      MakeDayInYear(y, m, 1);
      MakeDayInYear(y, m + 1, 1);
    }
  }

  /** December ends where the next year begins. */
  lemma {:induction false} DecemberLength(y: int)
    ensures MakeDay(y, 12, 1) - MakeDay(y, 11, 1) == DaysInMonth(y, 11)
  {
    MakeDayInYear(y, 11, 1);
    NextNewYear(y);
    YearLength(y);
    MonthsMakeYear(y);
  }

  lemma {:induction false} NextNewYear(y: int)
    ensures MakeDay(y, 12, 1) == DayFromYear(y + 1)
  {
    assert 12 / 12 == 1 && 12 % 12 == 0;
  }

  /** Within the year, `MakeDay` is New Year's day plus the days of the earlier months. */
  lemma {:induction false} MakeDayInYear(y: int, m: int, d: int)
    requires 0 <= m < 12
    ensures MakeDay(y, m, d) == DayFromYear(y) + MonthStart(y, m) + d - 1
  {
    assert m / 12 == 0 && m % 12 == m;
  }

  /** A day past the end of a month is read as a day of the next month, as `31/02` is early March. */
  lemma {:induction false} DayOverflow(y: int, m: int, d: int)
    requires 0 <= m < 12
    ensures MakeDay(y, m, d) == MakeDay(y, m + 1, d - DaysInMonth(y, m))
  {
    MonthLength(y, m);
  }

  // ---------------------------------------------------------------------------
  // new Date(ano, mes, dia)

  /** A JavaScript `Date` at local midnight: a day number, or the Invalid Date. */
  datatype Data = Invalida | Valida(dia: int)

  /**
   The time value of `new Date(...)` must stay within 8.64e15 ms of the epoch
   once converted to UTC; in the UTC-3 zone of the map's users local midnight of
   day `t` is `t * 86400000 + 3 h` in UTC, so day numbers from -10^8 up to but
   not including 10^8 are representable.
   */
  const LIMITE_DIAS: int := 100_000_000

  /** `new Date(ano, mes, dia)`: years 0 to 99 mean 1900 to 1999. */
  function NovaData(ano: int, mes: int, dia: int): (d: Data)
    ensures var y := if 0 <= ano <= 99 then 1900 + ano else ano;
      && (d.Valida? <==> -LIMITE_DIAS <= MakeDay(y, mes, dia) < LIMITE_DIAS)
      && (d.Valida? ==> d.dia == MakeDay(y, mes, dia))
  {
    var ano' := if 0 <= ano <= 99 then 1900 + ano else ano;
    var t := MakeDay(ano', mes, dia);
    if -LIMITE_DIAS <= t < LIMITE_DIAS then Valida(t) else Invalida
  }

  /** Day, 0-based month and year read from a `dd/mm/aaaa` string. */
  datatype Partes = Partes(dia: int, mes: int, ano: int)

  function PartesDataBR(s: string): Option<Partes> {
    if s == "" then None else LerPartes(Split(s, '/'))
  }

  /** Only a non-empty string with exactly two slashes can be read as a date. */
  lemma {:induction false} PartesDuasBarras(s: string)
    ensures PartesDataBR(s).Some? ==> s != "" && CountChar(s, '/') == 2
  {
    SplitLength(s, '/');
  }

  /** The three `parseInt` results, unless there are not exactly three parts. */
  function LerPartes(partes: seq<string>): (r: Option<Partes>)
    ensures r.Some? ==> |partes| == 3
  {
    if |partes| != 3 then None
    else LerNumeros(ParseInt(partes[0]), ParseInt(partes[1]), ParseInt(partes[2]))
  }

  /** `isNaN(dia) || isNaN(mes) || isNaN(ano)` fails the parse; the month is made 0-based. */
  function LerNumeros(dia: Option<int>, mes: Option<int>, ano: Option<int>): (r: Option<Partes>)
    ensures r.Some? <==> dia.Some? && mes.Some? && ano.Some?
  {
    if dia.Some? && mes.Some? && ano.Some? then Some(Partes(dia.value, mes.value - 1, ano.value))
    else None
  }

  /** `parseDataBR`: `None` is the `null` the source returns for a malformed string. */
  function ParseDataBR(s: string): (r: Option<Data>)
    ensures r.None? <==> PartesDataBR(s).None?
  {
    match PartesDataBR(s)
    case None => None
    case Some(p) => Some(NovaData(p.ano, p.mes, p.dia))
  }

  /**
   `parseDataBR` is `null` exactly for an empty string, a split into other than
   three parts, or a part that `parseInt` reads as NaN; otherwise it is
   `new Date(ano, mes - 1, dia)` of the three numbers.
   */
  lemma {:induction false} ParseDataBRCasos(s: string)
    ensures var partes := Split(s, '/');
      ParseDataBR(s).None? <==>
        s == "" || |partes| != 3
        || ParseInt(partes[0]).None? || ParseInt(partes[1]).None? || ParseInt(partes[2]).None?
  {
    if s != "" {
      LerPartesCasos(Split(s, '/'));
    }
  }

  /** When the three parts read as `dia`, `mes` and `ano`, the date is `new Date(ano, mes - 1, dia)`. */
  lemma {:induction false} ParseDataBRValor(s: string, dia: int, mes: int, ano: int)
    ensures var partes := Split(s, '/');
      (s != "" && |partes| == 3
       && ParseInt(partes[0]) == Some(dia) && ParseInt(partes[1]) == Some(mes)
       && ParseInt(partes[2]) == Some(ano))
      ==> ParseDataBR(s) == Some(NovaData(ano, mes - 1, dia))
  {
    var partes := Split(s, '/');
    if s != "" && |partes| == 3 && ParseInt(partes[0]) == Some(dia)
       && ParseInt(partes[1]) == Some(mes) && ParseInt(partes[2]) == Some(ano) {
      ParseDataBRDe(s, Partes(dia, mes - 1, ano));
    }
  }

  lemma {:induction false} LerPartesCasos(partes: seq<string>)
    ensures LerPartes(partes).None? <==>
      |partes| != 3
      || ParseInt(partes[0]).None? || ParseInt(partes[1]).None? || ParseInt(partes[2]).None?
    ensures (|partes| == 3
             && ParseInt(partes[0]).Some? && ParseInt(partes[1]).Some? && ParseInt(partes[2]).Some?)
      ==> (LerPartes(partes)
           == Some(Partes(ParseInt(partes[0]).value, ParseInt(partes[1]).value - 1,
                          ParseInt(partes[2]).value)))
  {
  }

  /** Once day, month and year are read, the date is built from them. */
  lemma {:induction false} ParseDataBRDe(s: string, p: Partes)
    requires PartesDataBR(s) == Some(p)
    ensures ParseDataBR(s) == Some(NovaData(p.ano, p.mes, p.dia))
  {
  }

  /** The `dd/mm/aaaa` text of a date, as the data set stores validity dates. */
  function FormatDataBR(dia: nat, mes: nat, ano: nat): string {
    Pad2(dia) + "/" + Pad2(mes) + "/" + ShowNat(ano)
  }

  lemma {:induction false} NoSlash(s: string)
    requires AllDigits(s)
    ensures '/' !in s
  {
    assert forall i :: 0 <= i < |s| ==> s[i] != '/';
  }

  lemma {:induction false} Join3(a: string, b: string, c: string, sep: char)
    ensures Join([a, b, c], sep) == a + [sep] + b + [sep] + c
  {
    assert [a, b, c][1..] == [b, c];
    assert [b, c][1..] == [c];
    assert Join([b, c], sep) == b + [sep] + c;
  }

  lemma {:induction false} SplitThree(a: string, b: string, c: string)
    requires '/' !in a && '/' !in b && '/' !in c
    ensures Split(a + "/" + b + "/" + c, '/') == [a, b, c]
  {
    Join3(a, b, c, '/');
    SplitJoin([a, b, c], '/');
  }

  /** Three numerals joined by slashes are read as day, month and year. */
  lemma {:induction false} PartesNumerais(a: string, b: string, c: string)
    requires |a| >= 1 && AllDigits(a) && |b| >= 1 && AllDigits(b) && |c| >= 1 && AllDigits(c)
    ensures PartesDataBR(a + "/" + b + "/" + c)
      == Some(Partes(DigitsValue(a), DigitsValue(b) - 1, DigitsValue(c)))
  {
    NumeraisLidos(a, b, c);
    PartesDeNumeros(a + "/" + b + "/" + c, a, b, c, DigitsValue(a), DigitsValue(b), DigitsValue(c));
  }

  /** The split and the three `parseInt` calls on three numerals joined by slashes. */
  lemma {:induction false} NumeraisLidos(a: string, b: string, c: string)
    ensures |a| >= 1 && AllDigits(a) && |b| >= 1 && AllDigits(b) && |c| >= 1 && AllDigits(c) ==>
      && Split(a + "/" + b + "/" + c, '/') == [a, b, c]
      && ParseInt(a) == Some(DigitsValue(a))
      && ParseInt(b) == Some(DigitsValue(b))
      && ParseInt(c) == Some(DigitsValue(c))
  {
    if |a| >= 1 && AllDigits(a) && |b| >= 1 && AllDigits(b) && |c| >= 1 && AllDigits(c) {
      SplitNumerais(a, b, c);
      ParseIntDigits(a);
      ParseIntDigits(b);
      ParseIntDigits(c);
    }
  }

  lemma {:induction false} SplitNumerais(a: string, b: string, c: string)
    requires AllDigits(a) && AllDigits(b) && AllDigits(c)
    ensures Split(a + "/" + b + "/" + c, '/') == [a, b, c]
  {
    NoSlash(a);
    NoSlash(b);
    NoSlash(c);
    SplitThree(a, b, c);
  }

  lemma {:induction false} ParseIntDigits(ds: string)
    requires |ds| >= 1 && AllDigits(ds)
    ensures ParseInt(ds) == Some(DigitsValue(ds))
  {
    ParseIntNumeral(ds, "");
    assert ds + "" == ds;
  }

  lemma {:induction false} PartesDeNumeros(s: string, a: string, b: string, c: string, x: int, y: int, z: int)
    requires Split(s, '/') == [a, b, c]
    requires ParseInt(a) == Some(x) && ParseInt(b) == Some(y) && ParseInt(c) == Some(z)
    ensures PartesDataBR(s) == Some(Partes(x, y - 1, z))
  {
    SlashesNonEmpty(s);
  }

  lemma {:induction false} SlashesNonEmpty(s: string)
    requires |Split(s, '/')| == 3
    ensures s != ""
  {
  }

  /** Reading back a formatted date gives its parts, month made 0-based. */
  lemma {:induction false} PartesFormat(dia: nat, mes: nat, ano: nat)
    ensures PartesDataBR(FormatDataBR(dia, mes, ano)) == Some(Partes(dia, mes - 1, ano))
  {
    NumeraisLidos(Pad2(dia), Pad2(mes), ShowNat(ano));
    Pad2Value(dia);
    Pad2Value(mes);
    ShowNatValue(ano);
    PartesDeNumeros(FormatDataBR(dia, mes, ano), Pad2(dia), Pad2(mes), ShowNat(ano), dia, mes, ano);
  }

  lemma {:induction false} MakeDayBounds(ano: int, mes: int, dia: int)
    requires 1000 <= ano <= 9999 && 0 <= mes < 12 && 0 <= dia <= 31
    ensures -LIMITE_DIAS <= MakeDay(ano, mes, dia) < LIMITE_DIAS
  {
  }

  /** A four-digit-year date round-trips through its `dd/mm/aaaa` text. */
  lemma {:induction false} ParseFormatDataBR(dia: nat, mes: nat, ano: nat)
    requires 1 <= mes <= 12 && dia <= 31 && 1000 <= ano <= 9999
    ensures ParseDataBR(FormatDataBR(dia, mes, ano)) == Some(Valida(MakeDay(ano, mes - 1, dia)))
  {
    PartesFormat(dia, mes, ano);
    MakeDayBounds(ano, mes - 1, dia);
  }

  /** A two-digit year is a year of the twentieth century: `01/01/24` is 1924. */
  lemma {:induction false} AnoDoisDigitos(dia: nat, mes: nat, aa: nat)
    requires 1 <= mes <= 12 && dia <= 31 && aa <= 99
    ensures ParseDataBR(Pad2(dia) + "/" + Pad2(mes) + "/" + Pad2(aa))
      == Some(Valida(MakeDay(1900 + aa, mes - 1, dia)))
  {
    PartesNumerais(Pad2(dia), Pad2(mes), Pad2(aa));
    Pad2Value(dia);
    Pad2Value(mes);
    Pad2Value(aa);
    MakeDayBounds(1900 + aa, mes - 1, dia);
  }

  // ---------------------------------------------------------------------------
  // classeValidade

  /** The CSS class of a validity line: `sem`, `expirada`, `proxima`, `ok`. */
  datatype Validade = Sem | Expirada | Proxima | Ok

  /** How comfortable a class is: expired, then due soon, then ok. */
  function Folga(v: Validade): int {
    match v
    case Sem => -1
    case Expirada => 0
    case Proxima => 1
    case Ok => 2
  }

  /** The class of a valid date `dif` whole days after today. */
  function ClassePorDias(dif: int): (v: Validade)
    ensures v != Sem
    ensures v == Expirada <==> dif < 0
    ensures v == Proxima <==> 0 <= dif <= 90
    ensures v == Ok <==> 90 < dif
  {
    if dif < 0 then Expirada else if dif <= 90 then Proxima else Ok
  }

  /**
   `classeValidade(validadeStr)` with today's day number `hoje` as a
   parameter. The Invalid Date is truthy and every comparison with NaN is
   false, so it falls through to `ok`.
   */
  function ClasseValidade(s: string, hoje: int): (v: Validade)
    ensures v == Sem <==> ParseDataBR(s).None?
    ensures forall d :: ParseDataBR(s) == Some(Valida(d)) ==> v == ClassePorDias(d - hoje)
    ensures ParseDataBR(s) == Some(Invalida) ==> v == Ok
  {
    match ParseDataBR(s)
    case None => Sem
    case Some(Invalida) => Ok
    case Some(Valida(d)) => ClassePorDias(d - hoje)
  }

  /** A later validity date is never classed as less comfortable. */
  lemma {:induction false} ClassePorDiasMonotone(a: int, b: int)
    requires a <= b
    ensures Folga(ClassePorDias(a)) <= Folga(ClassePorDias(b))
  {
  }

  /** The empty string has no date. */
  lemma {:induction false} SemDataVazia(hoje: int)
    ensures ClasseValidade("", hoje) == Sem
  {
  }

  /** A string without exactly two slashes has no date. */
  lemma {:induction false} SemSeBarrasErradas(s: string, hoje: int)
    requires CountChar(s, '/') != 2
    ensures ClasseValidade(s, hoje) == Sem
  {
    PartesDuasBarras(s);
  }

  /** A date with a digit-free part has no date. */
  lemma {:induction false} SemSeParteSemDigito(a: string, b: string, c: string, hoje: int)
    requires '/' !in a && '/' !in b && '/' !in c
    requires (forall i :: 0 <= i < |a| ==> !IsDigit(a[i]))
          || (forall i :: 0 <= i < |b| ==> !IsDigit(b[i]))
          || (forall i :: 0 <= i < |c| ==> !IsDigit(c[i]))
    ensures ClasseValidade(a + "/" + b + "/" + c, hoje) == Sem
  {
    SplitThree(a, b, c);
    UmaParteNaN(a, b, c);
    PartesSemNumero(a + "/" + b + "/" + c, a, b, c);
  }

  /** A digit-free part is NaN to `parseInt`. */
  lemma {:induction false} UmaParteNaN(a: string, b: string, c: string)
    ensures (forall i :: 0 <= i < |a| ==> !IsDigit(a[i]))
         || (forall i :: 0 <= i < |b| ==> !IsDigit(b[i]))
         || (forall i :: 0 <= i < |c| ==> !IsDigit(c[i]))
      ==> ParseInt(a).None? || ParseInt(b).None? || ParseInt(c).None?
  {
    if forall i :: 0 <= i < |a| ==> !IsDigit(a[i]) {
      ParseIntNoDigit(a);
    } else if forall i :: 0 <= i < |b| ==> !IsDigit(b[i]) {
      ParseIntNoDigit(b);
    } else if forall i :: 0 <= i < |c| ==> !IsDigit(c[i]) {
      ParseIntNoDigit(c);
    }
  }

  /** Three parts one of which is NaN make no date. */
  lemma {:induction false} PartesSemNumero(s: string, a: string, b: string, c: string)
    requires Split(s, '/') == [a, b, c]
    requires ParseInt(a).None? || ParseInt(b).None? || ParseInt(c).None?
    ensures PartesDataBR(s).None?
  {
  }

  /** A validity date that is today is due soon (zero days left). */
  lemma {:induction false} HojeEProxima(dia: nat, mes: nat, ano: nat)
    requires 1 <= mes <= 12 && dia <= 31 && 1000 <= ano <= 9999
    ensures ClasseValidade(FormatDataBR(dia, mes, ano), MakeDay(ano, mes - 1, dia)) == Proxima
  {
    ParseFormatDataBR(dia, mes, ano);
  }

  /** A validity date before today is expired, whatever today is. */
  lemma {:induction false} PassadaEExpirada(dia: nat, mes: nat, ano: nat, hoje: int)
    requires 1 <= mes <= 12 && dia <= 31 && 1000 <= ano <= 9999
    requires MakeDay(ano, mes - 1, dia) < hoje
    ensures ClasseValidade(FormatDataBR(dia, mes, ano), hoje) == Expirada
  {
    ParseFormatDataBR(dia, mes, ano);
  }

  /** A year too far ahead makes the Invalid Date, which the source classes as `ok`. */
  lemma {:induction false} DataDistanteOk(dia: nat, mes: nat, ano: nat, hoje: int)
    requires 1 <= mes <= 12 && dia <= 31 && ano >= 300000
    ensures ClasseValidade(FormatDataBR(dia, mes, ano), hoje) == Ok
  {
    PartesFormat(dia, mes, ano);
  }
}
