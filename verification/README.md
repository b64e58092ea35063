# Licence map: filter, search and validity classification

A Dafny model of the logic behind the licence-application map of `js/mapa.js`.
The map shows one marker and one list entry per licence application. It covers
four pieces:

- `normalizaTexto`: lower-cases a search text and strips `.`, `-`, `/` and
  whitespace;
- `parseDataBR` and `classeValidade`: read a `dd/mm/aaaa` validity date and
  class it as `sem` (no date), `expirada`, `proxima` (0 to 90 days ahead) or
  `ok`, against today;
- `corPorStatus`: the marker colour picked from the free-text status;
- `atualizarMapaELista`, which does four things:
  - reads the status selector and the two search boxes;
  - clears the map layer and the list;
  - walks the loaded features in order, keeping those that pass the status,
    process and enterprise tests, with their list entries and the four status
    counters;
  - shows a placeholder message when nothing passed.

Modules, one per concern:

- `Opcoes`: the optional value that stands for `null`, NaN or a missing element.
- `Texto`: the JavaScript string primitives the code relies on. These are
  `toLowerCase` (ASCII and Latin-1), the `\s`/`trim` whitespace set, `trim`,
  `includes`, and `split` on one character.
- `Normaliza`: `normalizaTexto`.
- `Datas`:
  - `parseInt(·, 10)`;
  - the ECMAScript calendar (`MakeDay`, `DayFromYear`);
  - `new Date(ano, mes, dia)`;
  - `parseDataBR` and `classeValidade`.
- `Status`: `corPorStatus` and the counter chosen by the counting chain.
- `Filtro`: the criteria, the inclusion test, the counters, the list entries,
  and `atualizarMapaELista` as a method from the old page to the new one.

How the model represents the outside world:

- Dates are whole day numbers counted from 1970-01-01. Local midnight is what
  `setHours(0, 0, 0, 0)` produces.
- "Today" is a parameter, `hoje`.
- The page is a value:
  - the map layer is the sequence of indices of the features put back on it;
  - the list is a sequence of entries;
  - each counter element is either absent or shows a number.

Behaviours of the code that the model keeps, though they may surprise:

- **Status filter.** The filter is an exact match that ignores case
  (`status.toLowerCase() !== statusSelecionado.toLowerCase()`), not a
  substring test. A licence whose status is "Pendente de documentação" is
  therefore left out when "Pendente" is selected (`PendenteDeDocumentacaoExcluido`),
  although the counting chain would put it under "pendente".
- **Two-digit years.** `new Date(ano, mes, dia)` reads a year from 0 to 99 as
  1900 to 1999, so `01/01/24` is a date in 1924 (`AnoDoisDigitos`).
- **Out-of-range days and months.** These carry into the next month or year,
  so `31/02/2025` is a day in March (`DayOverflow`).
- **Dates too far from 1970.** A year so large that the date is out of range
  gives the Invalid Date. That value is truthy, and every comparison with NaN
  is false, so such a date is classed `ok` (`DataDistanteOk`).
- **Colour and counter orders.** The colour and the counter use different words
  in different orders:
  - a status mentioning both "pendente" and "iniciar", and none of "aprov",
    "em análise", "em analise", is drawn orange but counted under "a iniciar";
  - "em analise" without the accent, or "aprovada", with none of the colour
    words "aprovado", "em análise", "pendente", "iniciar", is counted but drawn
    grey.
  (`PendenteEIniciarDivergem`, `CinzaMasContado`.)

## Model

| member | source | states |
|---|---|---|
| Texto.ToLower | js/mapa.js:344 | `toLowerCase` keeps the length, lower-cases each character on its own, and leaves no upper-case letter |
| Texto.ToLowerIdempotent | js/mapa.js:344 | lower-casing twice is lower-casing once |
| Texto.TrimSpec | js/mapa.js:354-356 | `trim` returns a slice of the input with only whitespace around it, and the slice neither starts nor ends with whitespace |
| Texto.TrimStartSpaces | js/mapa.js:355 | what the leading trim drops is whitespace, and what it keeps does not start with whitespace |
| Texto.TrimEndSpaces | js/mapa.js:355 | what the trailing trim drops is whitespace, and what it keeps does not end with whitespace |
| Texto.IncludesIffOccurs | js/mapa.js:401 | the `includes` scan is true exactly when the term occurs at some position of the text |
| Texto.IncludesEmpty | js/mapa.js:400-404 | the empty term is included in every text |
| Texto.IncludesPiece | js/mapa.js:170 | a text that includes a word includes every piece of that word |
| Texto.SplitLength | js/mapa.js:302-303 | `split` on one character makes one part more than the separator occurs |
| Texto.SplitParts | js/mapa.js:302 | no part of a split contains the separator |
| Texto.JoinSplit | js/mapa.js:302 | joining the parts of a split with the separator gives back the text |
| Texto.SplitJoin | js/mapa.js:302 | splitting separator-free parts joined by the separator gives back the parts |
| Normaliza.Remove | js/mapa.js:345 | the regular-expression replace leaves no `.`, `-`, `/` or whitespace, keeps only characters of its input, and never lengthens it |
| Normaliza.NormalizaTexto | js/mapa.js:340-346 | falsy (empty) text gives ""; the result is lower-case, holds no removable character, and is no longer than the input |
| Normaliza.NormalizaIdempotent | js/mapa.js:340-346 | normalising twice is normalising once |
| Normaliza.NormalizaFixpoint | js/mapa.js:340-346 | a lower-case text without removable characters is its own normal form |
| Normaliza.NormalizaConcat | js/mapa.js:340-346 | the normal form of a concatenation is the concatenation of the normal forms |
| Normaliza.NormalizaChar | js/mapa.js:344-345 | one character becomes its lower-case form, or nothing when that form is removable |
| Normaliza.NormalizaSpaces | js/mapa.js:340-346 | whitespace-only text normalises to "" |
| Normaliza.NormalizaTrim | js/mapa.js:354-357 | trimming before normalising does not change the normal form |
| Normaliza.RemoveConcat | js/mapa.js:345 | the replace distributes over concatenation |
| Normaliza.RemoveKeeps | js/mapa.js:345 | text without removable characters is left unchanged |
| Normaliza.RemoveDropsAll | js/mapa.js:345 | text made only of removable characters becomes "" |
| Datas.DigitPrefixSpec | js/mapa.js:305-307 | the numeral `parseInt` reads is the longest all-digit prefix: it is a prefix, all digits, and the next character is not a digit |
| Datas.ParseIntNumeral | js/mapa.js:305-307 | `parseInt` of a numeral followed by nothing or by a non-digit is the numeral's value |
| Datas.ParseIntNegative | js/mapa.js:305-307 | leading whitespace and a minus sign are accepted: `parseInt` of whitespace, "-" and a numeral is minus its value |
| Datas.ParseIntNoDigit | js/mapa.js:305-309 | a part without any digit is NaN |
| Datas.ShowNatValue | js/mapa.js:305-307 | the decimal numeral of `n` reads back as `n` |
| Datas.Pad2Value | js/mapa.js:305-306 | a zero-padded day or month reads back as its number |
| Datas.DigitsFromSnoc | js/mapa.js:305-307 | one more digit multiplies the value read so far by ten and adds the digit |
| Datas.MonthsMakeYear | js/mapa.js:311 | the twelve month lengths add up to the year's length |
| Datas.YearLength | js/mapa.js:311 | consecutive New Year's days are 365 days apart, or 366 after a leap year |
| Datas.DayFromYearCounts | js/mapa.js:311 | the closed day-from-year formula agrees with adding up year lengths one by one from 1970, in both directions |
| Datas.MonthLength | js/mapa.js:311 | the first of the next month is the first of this month plus the month's length, including December into January |
| Datas.DayOverflow | js/mapa.js:311 | a day past the end of a month is the same day as the overflow counted into the next month |
| Datas.MakeDayInYear | js/mapa.js:311 | for a month from 0 to 11 the day number is New Year's day plus the earlier months plus the day |
| Datas.NovaData | js/mapa.js:311 | `new Date(ano, mes, dia)` reads a year from 0 to 99 as 1900 to 1999 and keeps every other year, negative ones included; the result is valid exactly when that calendar day is representable, and is then that day, otherwise the Invalid Date |
| Datas.LerNumeros | js/mapa.js:305-309 | the parse fails exactly when one of day, month and year is NaN |
| Datas.LerPartes | js/mapa.js:303-309 | reading the parts succeeds only for exactly three parts |
| Datas.LerPartesCasos | js/mapa.js:303-309 | reading the parts fails exactly for other than three parts or a NaN part; otherwise it gives day, month minus one and year |
| Datas.ParseDataBR | js/mapa.js:300-312 | the parse is `null` exactly when reading day, month and year fails |
| Datas.ParseDataBRCasos | js/mapa.js:300-312 | `parseDataBR` is `null` exactly for the empty string, a split into other than three parts, or a part that is NaN |
| Datas.ParseDataBRValor | js/mapa.js:300-312 | when the three parts read as `dia`, `mes` and `ano`, the result is `new Date(ano, mes - 1, dia)` |
| Datas.PartesDuasBarras | js/mapa.js:301-303 | only a non-empty string with exactly two slashes can be read as a date |
| Datas.PartesNumerais | js/mapa.js:300-309 | three numerals joined by slashes read as day, month minus one and year |
| Datas.PartesFormat | js/mapa.js:300-309 | a `dd/mm/aaaa` text made from a day, month and year reads back as them, the month made 0-based |
| Datas.ParseFormatDataBR | js/mapa.js:300-312 | a date with a four-digit year round-trips through its `dd/mm/aaaa` text to the calendar day |
| Datas.AnoDoisDigitos | js/mapa.js:300-312 | a two-digit year is read as a year of the twentieth century |
| Datas.ClassePorDias | js/mapa.js:330-336 | a day difference below 0 is `expirada`, from 0 to 90 `proxima`, above 90 `ok`, each exactly |
| Datas.ClassePorDiasMonotone | js/mapa.js:330-336 | a later date is never classed as less comfortable |
| Datas.ClasseValidade | js/mapa.js:315-337 | `sem` exactly when the parse fails; for a valid date, the class of its day difference from today; `ok` for the Invalid Date |
| Datas.SemDataVazia | js/mapa.js:300-321 | an empty validity is `sem` |
| Datas.SemSeBarrasErradas | js/mapa.js:300-321 | a validity without exactly two slashes is `sem` |
| Datas.SemSeParteSemDigito | js/mapa.js:300-321 | a validity with a digit-free part is `sem` |
| Datas.HojeEProxima | js/mapa.js:324-333 | a validity date that is today is `proxima` |
| Datas.PassadaEExpirada | js/mapa.js:324-331 | a validity date before today is `expirada` |
| Datas.DataDistanteOk | js/mapa.js:300-337 | a date beyond the representable range is not `sem` but `ok` |
| Status.CorPorStatus | js/mapa.js:165-176 | an empty status is grey; otherwise each colour is chosen exactly when its word is the first of "aprovado", "em análise", "pendente", "iniciar" found in the lower-cased status; grey when none is found |
| Status.BaldeDe | js/mapa.js:417-426 | each counter is chosen exactly when its word is the first of "aprov", "em análise" or "em analise", "iniciar", "pendente" found in the lower-cased status; none when no word is found |
| Status.CorIgnoraCaixa | js/mapa.js:168 | letter case never changes the colour |
| Status.BaldeIgnoraCaixa | js/mapa.js:417 | letter case never changes the counter |
| Status.VerdeContaAprovado | js/mapa.js:165-426 | every green marker is counted as approved |
| Status.AmareloContaEmAnalise | js/mapa.js:165-426 | a yellow marker whose status does not mention "aprov" is counted as under review |
| Status.PendenteEIniciarDivergem | js/mapa.js:165-426 | a status with both "pendente" and "iniciar", and none of "aprov", "em análise", "em analise", is drawn orange but counted under "a iniciar" |
| Status.CinzaMasContado | js/mapa.js:165-426 | a status with "aprov" or "em analise" but none of the colour words is drawn grey yet counted |
| Filtro.CriteriosDe | js/mapa.js:353-361 | the selected status is the control's value, or "todos" when the control is missing; each search term is the normal form of its box's value, or "" when the box is missing; both terms are in normal form |
| Filtro.LerCriterios | js/mapa.js:353-361 | trimming then normalising the search boxes gives the same criteria as normalising alone |
| Filtro.InclusaoSeESoSe | js/mapa.js:389-411 | a feature is included exactly when the status matches ("todos", or equal ignoring case) and each normalised term occurs in the normalised field |
| Filtro.SemBuscaSoStatus | js/mapa.js:399-411 | with both terms empty, only the status test decides |
| Filtro.StatusDiferenteExclui | js/mapa.js:393-397 | a status different, ignoring case, from a selected status other than "todos" excludes the feature |
| Filtro.PendenteDeDocumentacaoExcluido | js/mapa.js:393-397 | "Pendente de documentação" is not included under the selection "Pendente" |
| Filtro.Selecionados | js/mapa.js:376-414 | the kept indices are valid and strictly increasing, so they follow load order |
| Filtro.SelecionadosSeESoSe | js/mapa.js:376-414 | an index is kept exactly when its feature passes the test |
| Filtro.IncluidosSeESoSe | js/mapa.js:376-429 | a feature is on the layer exactly when it passes the filter |
| Filtro.SelecionaTodos | js/mapa.js:376-429 | a test every feature passes keeps every index, in order |
| Filtro.TodosSemBusca | js/mapa.js:389-411 | "todos" with empty terms shows every feature, in load order |
| Filtro.ControlesTodosSemBusca | js/mapa.js:353-411 | no status control or "todos", with blank or whitespace-only search boxes, shows every feature, in load order |
| Filtro.Soma | js/mapa.js:418-426 | one step of the counting chain adds one to the chosen counter, leaves the others, and adds one to the total exactly when a counter is chosen |
| Filtro.ContaTudoConta | js/mapa.js:371-426 | the one-pass count of each counter equals that counter counted on its own |
| Filtro.ContaTudoCampos | js/mapa.js:371-426 | the four one-pass counts are the four independent counts |
| Filtro.UmaPassada | js/mapa.js:371-426 | in the one pass, each included feature adds to the total or to the uncounted features |
| Filtro.SomaContagem | js/mapa.js:414-426 | each included feature is counted once at most, so the four counters add up to at most the number included |
| Filtro.ItemDe | js/mapa.js:432-447 | each shown field is the feature's property when non-empty, otherwise "Não informado" ("Não informada" for the validity); the validity class is `classeValidade` of the validity text |
| Filtro.ItensSpec | js/mapa.js:431-460 | list entry `j` belongs to the `j`-th feature on the layer, so the list follows the layer's order |
| Filtro.ItensMaisUm | js/mapa.js:460 | one more included feature appends one more entry |
| Filtro.Passo | js/mapa.js:376-462 | one more feature extends the selection and the counts exactly as the loop body does |
| Filtro.Atualiza | js/mapa.js:480-483 | a counter missing from the page stays missing, and one that is present shows the new number |
| Filtro.Percorre | js/mapa.js:376-462 | the loop gives the included indices in order, their list entries, and the four counts |
| Filtro.MontarPagina | js/mapa.js:364-483 | the layer is exactly the included features, in order; the list is their entries or the placeholder alone; the counters present show the counts; the placeholder appears exactly when nothing is included |
| Filtro.AtualizarMapaELista | js/mapa.js:352-484 | the new page depends only on the controls and the data; layer, list, placeholder and counters as above, for the criteria the controls give |

## Left out

- Leaflet map set-up, tile and overlay layers, controls, legend, popups, and the
  list item's click handler that centres the map. These are rendering calls
  into a library outside this model.
- The `fetch` of the data sets and the timers around the map layout. These are
  asynchronous I/O.
- The mouse-coordinate readout. It is floating-point display.
- DOM lookups: the counter elements are modelled as present or absent, and the
  list entry as the strings it shows, not as HTML.
- `toString()` on the feature properties: every property is modelled as a
  string, with a missing property as "".
- Texto.ToLower: lower-cases ASCII and Latin-1 letters only, not the full
  Unicode case mapping of `toLowerCase`.
- Datas.ParseInt: numerals are exact integers. The precision loss of very long
  digit strings in floating point is not modelled.
- Datas.NovaData: assumes the UTC-3 time zone of the map's users for the
  representable-date limit. It does not model daylight saving time or the
  fractional day differences it could cause. `classeValidade` is therefore
  modelled on whole days.
- Datas.ClasseValidade: today is the parameter `hoje`, a day number, rather
  than the clock.
- Datas.ParseDataBRValor: states the built date for given part values, not
  through `.value` of the parse results. Together with Datas.ParseDataBRCasos
  it gives the full characterisation.
