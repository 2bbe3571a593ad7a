# Financial records client: storage manager and date helpers

This project models the browser side of a small bookkeeping application. The
application keeps two collections: accounts to pay (`contas`) and income
entries (`entradas`). It reaches them through a JSON API. Two pieces of the
client are modelled and proved.

* `StorageManager` (static/js/storage.js) is a cache in front of the API.
  - The cache is `memoryCache = {contas, entradas, timestamp}` with a
    time-to-live of 120 000 ms.
  - Loads follow a chain: valid cache, then the API, then the cache even if
    stale, then `[]`.
  - It offers whole-list create, update and delete; clear, import and export
    of the dataset; a health probe; and the statistics of a dataset.
* `DateUtils` (static/js/dateUtils.js) holds pure helpers on `YYYY-MM-DD`
  strings read at local midnight: formatting, first and last day of a month,
  adding and subtracting days, "in the past", and day differences.

Modules, in dependency order:

| file | module | contents |
|---|---|---|
| Values.dfy | `Values` | scalar JSON values, records as `map<string, Value>`, numbers with NaN, API replies |
| Calendar.dfy | `Calendar` | the proleptic Gregorian calendar of ECMAScript Dates, as a proved bijection between valid dates and day numbers (day 0 is 1970-01-01) |
| DateUtils.dfy | `DateUtils` | the DateUtils helpers, the ECMAScript steps they rely on (MakeDay, MakeFullYear, setDate, `Math.ceil`), and their properties |
| RecordLists.dfy | `RecordLists` | `findIndex`, the object spread `{...a, ...b}`, `filter`, `reduce` and delete-by-id, with their properties |
| Statistics.dfy | `Statistics` | what `obterEstatisticas` computes; the `forEach` that groups entries by type as a loop proved against a fold |
| Storage.dfy | `Storage` | the `StorageManager` class over shared `RecordArray` objects, and scenarios that show how its cache behaves |

Modelling choices:

* **The API.** Every API call is an input of the method that makes it: the
  `Reply` (`Ok` with decoded JSON, or `Err` for any rejection). Every request
  sent is appended to the ghost log `requests`.
* **The clock.** Each reading of `Date.now()` is an `int` parameter.
  `new Date()` is a `JsDate` parameter.
* **Shared arrays.** JavaScript arrays are `RecordArray` objects shared by
  reference. A load may answer the cached array itself, so a later `push` or
  element assignment changes the cache too, even when the save then fails.
* **Date parsing.** Which strings `new Date(s + 'T00:00:00')` accepts depends
  on the engine (ECMA-262 section 21.4.3.2, Date.parse), so the engine is a
  function parameter `parse`. Where a property needs it, it is constrained by
  `Conservative(parse)`: a well-formed, existing `YYYY-MM-DD` date reads as
  that day's local midnight, and the empty string reads as an Invalid Date.
* **Time zone.** The local zone is assumed to have no daylight-saving shifts,
  so every local day lasts 86 400 000 ms.

`carregar*` and `salvar*` write the cache only when it is already valid
(storage.js:77-79, 104-106). Only `updateMemoryCache` sets the timestamp, and
nothing in the file calls it. So a successful load or save does not refresh
the cache, and a failed load after a successful one still answers `[]`
(`Storage.LoadThenOffline`). The stale fallback is reachable only after an
external `updateMemoryCache` (`Storage.StampedThenStale`).

## Model

| member | source | states |
|---|---|---|
| Calendar.DaysInMonth | static/js/dateUtils.js:54 | a month has 28 to 31 days; February has 29 exactly in Gregorian leap years |
| Calendar.FromDayNumberInverse | static/js/dateUtils.js:61-65 | every day number maps to a valid date, and numbering that date gives back the day number |
| Calendar.DayNumberInverse | static/js/dateUtils.js:14-18 | converting a valid date to its day number and back gives back the date |
| Calendar.DayNumberInjective | static/js/dateUtils.js:85-90 | two valid dates have the same day number exactly when they are equal |
| Calendar.MonthEndThenNext | static/js/dateUtils.js:53-56 | the first of the next month (January of the next year after December) is one day after the month's last day |
| DateUtils.NewDate | static/js/dateUtils.js:33 | a Date read from a string is valid exactly when the engine parses the string, and is then a local midnight; under a conforming engine a well-formed date string gives the midnight of exactly that day |
| DateUtils.MakeFullYear | static/js/dateUtils.js:54 | years 0 to 99 become 1900 to 1999; the effect on month ends is stated by DateUtils.UltimoDiaTwoDigitYear |
| DateUtils.MakeDay | static/js/dateUtils.js:54 | the day number of day dt of a zero-based month, carried across years; its use is stated by DateUtils.SetDateShift and DateUtils.UltimoDiaIsDaysInMonth |
| DateUtils.SetDate | static/js/dateUtils.js:61 | `setDate` keeps the year, month and time of day; DateUtils.SetDateShift states what `setDate(getDate() + n)` does |
| DateUtils.GetDataLocal | static/js/dateUtils.js:5-11 | today's local date text; DateUtils.GetMesLocalIsPrefix relates it to the month text |
| DateUtils.GetDataLocalFromDate | static/js/dateUtils.js:14-19 | the local date text of a Date, `NaN-NaN-NaN` for an Invalid Date; DateUtils.GetDataLocalFromDateRoundTrip states its round trip |
| DateUtils.GetMesLocal | static/js/dateUtils.js:22-27 | the local `YYYY-MM` text; DateUtils.GetMesLocalIsPrefix states it is the prefix of the date text |
| DateUtils.FormatarDataBrasil | static/js/dateUtils.js:30-37 | `dd/mm/aaaa` of a date; its cases are stated by DateUtils.FormatarDataBrasilCases |
| DateUtils.GetPrimeiroDiaMes | static/js/dateUtils.js:48-50 | for every year and month, the text ends in `-01` |
| DateUtils.GetUltimoDiaMes | static/js/dateUtils.js:53-56 | the last day of a month; stated by DateUtils.UltimoDiaMes and DateUtils.UltimoDiaFevereiro |
| DateUtils.AdicionarDias | static/js/dateUtils.js:59-68 | the date n days later; stated by DateUtils.AdicionarDiasShifts and DateUtils.AdicionarDiasTo |
| DateUtils.SubtrairDias | static/js/dateUtils.js:71-73 | the date n days earlier; DateUtils.SubtrairDiasUndoes states it undoes adicionarDias |
| DateUtils.IsPassado | static/js/dateUtils.js:76-82 | before today's local midnight; stated by DateUtils.IsPassadoIff |
| DateUtils.DiferencaDias | static/js/dateUtils.js:85-91 | the whole days between two dates, rounded up; stated by DateUtils.DiferencaDiasExact |
| DateUtils.Pad2 | static/js/dateUtils.js:16-17 | `padStart(2, '0')` gives length max(2, \|s\|), ends with s, and has only '0' before it |
| DateUtils.ParseIso | static/js/dateUtils.js:43 | the strict `YYYY-MM-DD` reading gives only valid dates with years 0 to 9999, and only for strings of that shape |
| DateUtils.IsValidDate | static/js/dateUtils.js:40-45 | false on "", true for every well-formed existing date under a conforming engine, and in general true exactly when the input is non-empty and parses |
| DateUtils.FormatarDataBrasilCases | static/js/dateUtils.js:30-37 | "" gives ""; an invalid input comes back unchanged; a valid date gives `dd/mm/aaaa` of that day |
| DateUtils.ParseLocalDateString | static/js/dateUtils.js:14-19 | the `YYYY-MM-DD` text of a valid date with a four-digit year is well-formed and reads back as that date |
| DateUtils.LocalDateStringOfParse | static/js/dateUtils.js:14-19 | formatting a well-formed date string of a year from 1000 on after reading it gives back the string |
| DateUtils.GetDataLocalFromDateRoundTrip | static/js/dateUtils.js:14-19 | getDataLocalFromDate of a Date in a year from 1000 to 9999 reads back, at local midnight, as the same local day |
| DateUtils.GetMesLocalIsPrefix | static/js/dateUtils.js:22-27 | getDataLocal is getMesLocal followed by `-` and the padded day of the month |
| DateUtils.PrimeiroDiaMesParses | static/js/dateUtils.js:48-50 | for years 1000 to 9999 and months 1 to 12, getPrimeiroDiaMes is the well-formed text of the first day of that month, `-01` at index 7 |
| DateUtils.UltimoDiaIsDaysInMonth | static/js/dateUtils.js:54 | day 0 of the following month is the last day of month `mes` of year `ano` |
| DateUtils.UltimoDiaMes | static/js/dateUtils.js:53-56 | getUltimoDiaMes is `ano-MM-DD` where DD is the month's number of days, and reads back as that date |
| DateUtils.UltimoDiaFevereiro | static/js/dateUtils.js:53-56 | the last day of February is the 29th in leap years and the 28th otherwise |
| DateUtils.UltimoDiaTwoDigitYear | static/js/dateUtils.js:54 | year 0 is read as 1900, so February of year 0 (a leap year) ends on the 28th |
| DateUtils.UltimoThenPrimeiro | static/js/dateUtils.js:48-68 | for years 1000 to 9998, adding one day to a month's last day gives the first day of the next month, across year ends |
| DateUtils.SetDateShift | static/js/dateUtils.js:61 | `setDate(getDate() + n)` moves a Date by exactly n days, keeping the time of day |
| DateUtils.AdicionarDiasShifts | static/js/dateUtils.js:59-68 | adicionarDias gives the local date n days after the parsed day, or `NaN-NaN-NaN` for an invalid input |
| DateUtils.AdicionarDiasNormalised | static/js/dateUtils.js:59-68 | with a four-digit result year, the result is well-formed, zero-padded `YYYY-MM-DD` |
| DateUtils.AdicionarZeroDias | static/js/dateUtils.js:59-68 | adding 0 days to a well-formed date of a year from 1000 on gives it back unchanged |
| DateUtils.AdicionarZeroDiasThreeDigitYear | static/js/dateUtils.js:59-68 | adding 0 days to 0999-01-01 answers 999-01-01: the year is not padded |
| DateUtils.AdicionarDiasTo | static/js/dateUtils.js:59-68 | adding n days answers exactly the well-formed date, of a year from 1000 on, whose day number is n more |
| DateUtils.IsoExamples | static/js/dateUtils.js:60 | 2024-02-29 exists, 2023-02-29 does not, and the unpadded 2024-2-29 is not well-formed |
| DateUtils.IsoYearEndExamples | static/js/dateUtils.js:60 | the dates of the year-end and day-difference examples are well-formed |
| DateUtils.AdicionarDiasLeapDay | static/js/dateUtils.js:59-68 | 2024-02-28 plus one day is 2024-02-29 |
| DateUtils.AdicionarDiasCommonFebruary | static/js/dateUtils.js:59-68 | 2023-02-28 plus one day is 2023-03-01 |
| DateUtils.AdicionarDiasYearEnd | static/js/dateUtils.js:59-68 | 2024-12-31 plus one day is 2025-01-01 |
| DateUtils.SubtrairDiasUndoes | static/js/dateUtils.js:71-73 | subtracting n days after adding n days gives back the original date |
| DateUtils.IsPassadoIff | static/js/dateUtils.js:76-82 | a date is past exactly when it parses to a day before today; today itself is never past |
| DateUtils.DiferencaDiasExact | static/js/dateUtils.js:85-91 | the ceiling of the millisecond difference is exactly the difference of day numbers, or NaN if either date is invalid |
| DateUtils.DiferencaDiasAntisymmetric | static/js/dateUtils.js:85-91 | swapping the arguments negates the difference |
| DateUtils.DiferencaDiasAfterAdicionar | static/js/dateUtils.js:85-91 | the difference between a date and that date plus n days is n |
| DateUtils.DiferencaDiasExample | static/js/dateUtils.js:85-91 | from 2024-01-01 to 2024-01-10 is 9 days |
| RecordLists.FindIndex | static/js/storage.js:194 | the first index whose record has the id, or -1 exactly when no record has it |
| RecordLists.Merge | static/js/storage.js:196 | the spread has the fields of both records, the patch winning on shared names |
| RecordLists.Filter | static/js/storage.js:218 | the result never grows and holds exactly the elements that pass |
| RecordLists.FilterAppend | static/js/storage.js:218 | filtering a concatenation filters each part, so survivors keep their order |
| RecordLists.FilterKeepsAll | static/js/storage.js:218-220 | the length is kept exactly when every element passes, and the list is then unchanged |
| RecordLists.FilterDisjoint | static/js/storage.js:343-344 | two conditions no element meets together select at most the whole list between them |
| RecordLists.RemoveId | static/js/storage.js:218 | `filter(r => r.id !== id)`; stated by RecordLists.RemoveIdSpec |
| RecordLists.RemoveIdSpec | static/js/storage.js:216-221 | deleting keeps exactly the records without the id; the length changes exactly when some record had it |
| RecordLists.RemoveIdAppend | static/js/storage.js:218 | deleting distributes over concatenation |
| RecordLists.RemoveIdIdempotent | static/js/storage.js:218 | deleting twice is deleting once |
| RecordLists.UpdateFirst | static/js/storage.js:194-196 | the list after merging the patch into the first record with the id; stated by RecordLists.UpdateFirstSpec |
| RecordLists.UpdateFirstSpec | static/js/storage.js:192-201 | only the first record with the id changes, to its merge with the patch; a missing id changes nothing |
| RecordLists.UpdateFirstKeepsIndex | static/js/storage.js:194-198 | a patch without `id` leaves the updated record first with that id, at the same index |
| RecordLists.SumOf | static/js/storage.js:353 | `reduce` of the amounts from 0; stated by RecordLists.SumOfAppend and RecordLists.SumOfFinite |
| RecordLists.SumOfAppend | static/js/storage.js:353 | `reduce` over a concatenation continues from the first part's sum |
| RecordLists.SumOfFinite | static/js/storage.js:353-354 | a sum is a number exactly when every term is |
| Statistics.IsVencida | static/js/storage.js:345-351 | the overdue test; stated by Statistics.VencidaIff |
| Statistics.NoMesAtual | static/js/storage.js:357-362 | the test for the current local month; Statistics.EntradaForaDoMes states its effect |
| Statistics.EntryAmount | static/js/storage.js:364 | `parseFloat(valorCalculado \|\| valor)`; its sums are stated by Statistics.PorTipoLookup |
| Statistics.Put | static/js/storage.js:370-372 | assignment of one property; stated by Statistics.PutLookup, Statistics.PutPut and Statistics.PutOrder |
| Statistics.AddEntry | static/js/storage.js:369-372 | one turn of the forEach; stated by Statistics.NaNTotalRestarts and Statistics.PorTipoLookup |
| Statistics.PorTipo | static/js/storage.js:366-373 | the per-type object after the forEach; stated by Statistics.PorTipoKeys, Statistics.PorTipoLookup and Statistics.PorTipoDistinct |
| Statistics.ComputeStatistics | static/js/storage.js:332-391 | the statistics object; stated by Statistics.ContasCounts, Statistics.SaldoEMedia and Statistics.EntradaForaDoMes |
| Statistics.Lookup | static/js/storage.js:369 | `porTipo[k]` is absent exactly when no property has the name k |
| Statistics.GroupByType | static/js/storage.js:366-373 | the `forEach` loop builds exactly the fold PorTipo of the month's entries |
| Statistics.PutLookup | static/js/storage.js:370-372 | after assigning `porTipo[k]`, k reads the new value and every other name reads what it read before |
| Statistics.PutPut | static/js/storage.js:370-372 | a second assignment to the same name overwrites the first |
| Statistics.PutOrder | static/js/storage.js:370-372 | assigning an existing name keeps the property order; a new name goes last |
| Statistics.PutTotal | static/js/storage.js:372 | assigning a total changes the grand total by the difference |
| Statistics.PorTipoTotal | static/js/storage.js:364-373 | with finite amounts, the per-type totals add up to the sum of all amounts |
| Statistics.PorTipoKeys | static/js/storage.js:366-373 | porTipo has a property for exactly the entry types that occur |
| Statistics.PorTipoLookup | static/js/storage.js:366-373 | with finite amounts, each type's property is the sum of the amounts of that type |
| Statistics.PorTipoDistinct | static/js/storage.js:366-373 | every type appears once in porTipo |
| Statistics.NaNTotalRestarts | static/js/storage.js:369-370 | a NaN total is falsy, so the next entry of that type restarts it from 0 |
| Statistics.ContasCounts | static/js/storage.js:343-351 | for any entries, total is the number of accounts; to-pay plus paid, and overdue plus paid, never exceed it; overdue accounts are never paid |
| Statistics.VencidaIff | static/js/storage.js:345-351 | overdue exactly when not paid, the due date parses, and its midnight is before now |
| Statistics.DueTodayIsVencida | static/js/storage.js:349-350 | an unpaid account due today is overdue once the day has begun |
| Statistics.EntradaForaDoMes | static/js/storage.js:357-362 | an entry outside the current month, wherever it stands in the list, changes no figure |
| Statistics.PorTipoSomaValorMes | static/js/storage.js:364-373 | with finite amounts, the per-type totals add up to valorMes |
| Statistics.SaldoEMedia | static/js/storage.js:385-390 | with finite amounts, saldo is valorMes minus valorAPagar, and mediaDiaria is valorMes/30 when an entry counts, else 0 |
| Statistics.ContaVencidaExemplo | static/js/storage.js:342-383 | one unpaid account of 100 due 2020-01-01, seen later, counts once as to pay and once as overdue, with valorAPagar 100 |
| Storage.RecordArray.Push | static/js/storage.js:174 | `push` appends the record to the shared array |
| Storage.RecordArray.Set | static/js/storage.js:196 | element assignment replaces one element of the shared array |
| Storage.StorageManager.IsCacheValid | static/js/storage.js:22-25 | a present, non-zero timestamp less than 120 000 ms old; its use is stated by Storage.StorageManager.UpdateMemoryCache and Storage.StampedThenStale |
| Storage.StorageManager.constructor | static/js/storage.js:4-19 | the cache starts empty with no timestamp, and is then invalid at every instant |
| Storage.StorageManager.UpdateMemoryCache | static/js/storage.js:22-34 | replaces both cached lists and stamps them; the cache is valid for 120 000 ms from a non-zero stamp and invalid from then on |
| Storage.StorageManager.Carregar | static/js/storage.js:64-95 | cache hit without a request; else the API list, cached only if valid by then; else the old cached array even if expired; else `[]` (carregarEntradas, 117-148, likewise) |
| Storage.StorageManager.Salvar | static/js/storage.js:98-114 | answers whether the POST succeeded, sends the list, and caches it only on success with a valid cache (salvarEntradas, 151-167, likewise) |
| Storage.StorageManager.Adicionar | static/js/storage.js:170-178 | stamps id and dataCriacao on the record, saves the loaded list plus it, answers it or null; a list answered from the cache changes in the cache too (adicionarEntrada, 181-189, likewise) |
| Storage.StorageManager.Atualizar | static/js/storage.js:192-201 | a missing id answers null with no save; otherwise saves the list with only the first match merged, and answers that merge if saved (atualizarEntrada, 204-213, likewise) |
| Storage.StorageManager.Excluir | static/js/storage.js:216-221 | always saves the list without every record of the id; answers true exactly when saved and some record had the id (excluirEntrada, 224-229, likewise) |
| Storage.StorageManager.LimparDados | static/js/storage.js:237-257 | saves empty lists of both kinds, clears the cache, and answers true whatever the saves answered |
| Storage.StorageManager.ExportarDados | static/js/storage.js:260-279 | the dataset, with its nested properties such as `config`, plus export time and `JSON Files`; offline, the cached lists or `[]` with `Memory Cache (Offline)` |
| Storage.StorageManager.ImportarDados | static/js/storage.js:282-299 | posts the dataset, nested properties included; on success clears the cache and answers true, on failure leaves it and answers false |
| Storage.StorageManager.VerificarConexaoAPI | static/js/storage.js:302-309 | answers whether GET /health succeeded, leaving the cache alone |
| Storage.StorageManager.ObterEstatisticas | static/js/storage.js:332-400 | the statistics of the fetched dataset (missing lists read as empty), or the all-zero structure when the request fails |
| Storage.ColdOfflineLoad | static/js/storage.js:82-94 | from a new manager, a failed load answers `[]` |
| Storage.LoadThenOffline | static/js/storage.js:74-79 | a successful load does not fill the cache, so a later failed load still answers `[]` |
| Storage.StampedThenStale | static/js/storage.js:22-25 | after an external stamp, a load within 120 000 ms answers the cached list with no request, and a failed load after expiry answers the stale list |
| Storage.FailedAddStillCached | static/js/storage.js:170-178 | adding to a list answered from the cache changes the cached array even when the save fails and null is answered |
| Storage.ExcluirAusente | static/js/storage.js:216-221 | deleting an id no record has still sends the unchanged list and answers false |

## Left out

- Calcdesossa.py is not part of this model. Its pricing formulas are floating-point arithmetic behind a Tk GUI.
- static/server.js, servidor_json.py and app.py are not part of this model. They are HTTP routes, file access and a launcher; the client sees them only as the API replies.
- `apiRequest` (storage.js:37-61): fetch, HTTP status and JSON decoding become the `Reply` each operation receives. A payload of the wrong shape (not a list, or null) counts as `Err`.
- `apiBaseUrl` (storage.js:6-8) depends on `window.location` and is left out.
- `criarBackup` and `obterEstatisticasBD` (storage.js:312-329) are left out. They only pass the server's answer through.
- `gerarId` (storage.js:232-234) takes the clock and `Math.random`, so the new id is a parameter. Nothing makes ids unique, and nothing is assumed.
- `new Date().toISOString()` becomes a string parameter; `Date.now()` and `new Date()` become clock parameters.
- Console logging is left out.
- `limparDados`: `Promise.all` runs both saves at once. They touch different collections, so the model runs them in order, accounts first.
- Storage.RecordArray: arrays hold record values rather than references to record objects. A pushed record object and the element in the array are therefore not the same object, and later changes to one are not seen through the other.
- Storage.StorageManager.ExportarDados: the offline export holds a copy of the cached lists rather than the cached arrays themselves.
- Values.ParseFloat: amounts are numbers (reals), as the records hold them. `parseFloat` of a numeric string and floating-point rounding are not modelled; a non-number amount gives NaN.
- Statistics.PutOrder and Statistics.AddEntry: the model keeps properties in insertion order. A JavaScript object lists array-index names ("2", "10") first, in ascending numeric order, so a new tipo "2" added after "10" comes first there.
- Statistics.AddEntry and Statistics.Put: an object starts empty here. In JavaScript, names inherited from Object.prototype ("toString", "constructor", "valueOf") read as a truthy function, so the total is not reset and `+=` builds a string; assigning "__proto__" creates no property.
- Statistics.Lookup: `porTipo` property names are entry-type values, not the property-key strings that JavaScript converts them to. So the number 1 and the string "1" are two properties here and one in the code.
- Statistics.IsVencida and Statistics.NoMesAtual: a date field that is not a string is treated as invalid. The code would also convert a number or a Date to a string first.
- DateUtils.FormatarDataBrasil: `toLocaleDateString('pt-BR')` belongs to the locale library. It is assumed to give `dd/mm/aaaa`.
- DateUtils.AdicionarDias and DateUtils.SubtrairDias: `dias` is taken to be a number. A string `dias` would make `getDate() + dias` a string concatenation in JavaScript.
- DateUtils.NewDate: the range limit on time values (±8.64e15 ms) is not modelled, and daylight-saving shifts are excluded.
- DateUtils.ParseLocalDateString, DateUtils.LocalDateStringOfParse, DateUtils.GetDataLocalFromDateRoundTrip, DateUtils.PrimeiroDiaMesParses, DateUtils.UltimoThenPrimeiro, DateUtils.AdicionarZeroDias, DateUtils.AdicionarDiasTo, DateUtils.AdicionarDiasNormalised, DateUtils.SubtrairDiasUndoes and DateUtils.DiferencaDiasAfterAdicionar: proved for years 1000 to 9999 only (from 1000 on where only reading is involved; to 9998 where the next month is read). Only those years have the four-digit decimal text a well-formed date string needs. The year is written without padding, so a date of a year below 1000 does not come back unchanged (DateUtils.AdicionarZeroDiasThreeDigitYear).
- DateUtils.UltimoDiaMes and DateUtils.UltimoDiaIsDaysInMonth: proved for years from 100 on. For years 0 to 99 the Date constructor reads the year as 1900 + ano; `DateUtils.UltimoDiaTwoDigitYear` shows the consequence.
