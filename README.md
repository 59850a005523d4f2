# Gestion-RRHH: the spreadsheet column map and its derived values, in Dafny

This project models the part of the Gestion-RRHH personnel system that moves
workers between the Django database and the "RELACION DE PERSONAL" workbook.
It also models the small rules derived from those records.

- **The import command** (`importar_excel`):
  - chooses the sheet ("NOVEDADES Y", "NOVEDADES Y (2)", "NOVEDADES YY", or
    else the first sheet);
  - finds the row where data starts, which is after a "N°" cell or at the
    first all-digit cell of rows 1-10;
  - reads each row by column index, through `_get_cell_value`;
  - coerces the cells: `_parse_date`, `_parse_decimal` with the Colombian
    "1.234.567,89" format, `_parse_int`, `_parse_bool`, and the
    identification and contract type maps;
  - infers a missing birth or issue date from the other one;
  - stores the worker, its yearly facts and twelve month slots of four
    columns each;
  - counts the workers it creates and the rows that fail.
- **The export command** (`exportar_excel`):
  - names the sheet and replaces an old sheet of that name;
  - picks the sheet it copies as a template;
  - clears rows 5 onward;
  - selects the workers that have a contract for the year, in id order;
  - writes each worker's row one cell at a time. A failure leaves that row
    where it is, and the next worker reuses it.
- **The export view** (`TrabajadorViewSet.exportar_excel`):
  - writes the same layout into the template's active sheet;
  - names the download `RELACION_PERSONAL_EXPORT_YYYYMMDD_HHMMSS.xlsx`;
  - the list endpoint's handling of the `anio` query parameter is modelled
    alongside it.
- **Derived values from the models and serializers**: `nombre_completo`,
  `__str__` and `edad` of a worker; `contrato_activo` and `dias_restantes`;
  the `contratos_activos` and `por_trabajador` queries; the year a schedule
  row takes from its month on `save`; the Spanish month label; and the
  project summary string.
- **The web client**:
  - the employees page: labels, search box, one entry per name, and what a
    click opens;
  - the dashboard: distinct-name count, the three newest records, and the
    "Hace N días" text;
  - the three-field authentication store.

The spreadsheet is a map from (row, column) to cells, and the database is a
set of maps keyed by (worker, year) and (worker, month). Money is an exact
decimal (units and a power-of-ten scale), never a float. Dates are
(year, month, day) triples. The current day and instant are parameters.

The export writes column `k + 1` for what the import reads at index `k`,
because the worksheet API counts from one and a row tuple from zero.
`RoundTrip.ExportedRowBack` proves that this makes the two directions fit:
the import parses the row the export command writes for a worker whose
block runs without raising back into the same worker and the same facts for
the year. Only the normalisations
the import itself applies differ: stripped texts, a zero settlement read as
null, and months without data read as zero rows.

Modules, one per source file or concern:

| module | models |
|---|---|
| `Wrappers`, `Dates`, `Text`, `Money` | Option, calendar dates, Python and JavaScript string operations, exact decimals and `float()` literals |
| `Cells`, `Sheets` | worksheet cells as openpyxl stores and returns them; a sheet as a class over a grid |
| `Coercion` | `_parse_date`, `_parse_decimal`, `_parse_int`, `_parse_bool`, the identification and contract maps |
| `Trabajadores`, `Contratacion`, `ContratacionViews`, `Cronograma`, `CronogramaSerializers`, `Proyectos`, `Registros`, `Store` | the Django models, views and serializers named above; the tables the commands write |
| `Importar`, `Exportar`, `ExportarVista`, `TrabajadoresViews` | the two commands and the view |
| `RoundTrip` | export followed by import |
| `Empleados`, `Dashboard`, `AuthStore` | the client pages and store |

## Model

| member | source | states |
|---|---|---|
| `Dates.ReplaceYear` | Software/trabajadores/management/commands/importar_excel.py:127 | `date.replace(year=y)` succeeds with the same month and day exactly when that day exists in year y (1..9999); 29 February fails outside leap years |
| `Dates.Feb29ShiftFails` | Software/trabajadores/management/commands/importar_excel.py:127-134 | moving 29 February by 18 years in either direction always raises |
| `Dates.LessEqTotal` | Software/contratacion/models.py:166-177 | date comparison is a total order: any two dates compare, and `<` is the negation of the reverse `<=` |
| `Dates.OrdinalMonotone` | Software/contratacion/models.py:179 | the day number behind date subtraction grows strictly with the date |
| `Dates.OrdinalInjective` | Software/contratacion/models.py:179 | two dates with the same day number are the same date |
| `Dates.NextDayOrdinal` | Software/contratacion/models.py:179 | the next calendar day is one day number later |
| `Text.StripIdempotent` | Software/trabajadores/management/commands/importar_excel.py:344 | Python `strip()` applied twice equals once |
| `Text.StripEnds` | Software/trabajadores/management/commands/importar_excel.py:344 | a stripped text neither starts nor ends with whitespace |
| `Text.TrimEmpty` | gestion-empleados/app/empleados/page.tsx:143 | JavaScript `trim()` gives "" exactly when every character is whitespace |
| `Text.Contains` | gestion-empleados/app/empleados/page.tsx:146-147 | `includes` holds exactly when the needle occurs at some position |
| `Text.UpperIdempotent` | Software/trabajadores/management/commands/importar_excel.py:415 | `upper()` applied twice equals once |
| `Text.Split` | Software/trabajadores/management/commands/importar_excel.py:362-364 | the pieces between separators contain no separator and rejoin to the text |
| `Text.NatToString` | Software/trabajadores/management/commands/importar_excel.py:58-60 | `str(n)` is a digit string without leading zeros whose value is n |
| `Text.NatToStringInjective` | Software/trabajadores/management/commands/importar_excel.py:58-60 | different numbers print differently |
| `Money.Normalise` | Software/trabajadores/management/commands/importar_excel.py:396 | the normal form has the same value and no trailing zero digit |
| `Money.FloatLiteral` | Software/trabajadores/management/commands/importar_excel.py:396 | what `float()` accepts is returned in normal form; a text with an underscore that does not stand between two digits is refused |
| `Money.GroupedLiteral` | Software/trabajadores/management/commands/importar_excel.py:396 | digits grouped by an underscore read as the digits run together |
| `Text.Ungrouped` | Software/trabajadores/management/commands/importar_excel.py:396 | the underscores are dropped exactly when each stands between two digits, and the result has none; a text without underscores is kept |
| `Money.DecimalTextRoundTrip` | Software/trabajadores/management/commands/exportar_excel.py:133 | the text of an amount written as a number reads back through `float()` as the same amount |
| `Money.IntTextRoundTrip` | Software/trabajadores/management/commands/importar_excel.py:379-380 | `float(str(i))` is i |
| `Money.TwoPointsRejected` | Software/trabajadores/management/commands/importar_excel.py:394-396 | `float()` refuses digits with two decimal points |
| `Money.StrayCharRejected` | Software/trabajadores/management/commands/importar_excel.py:396-398 | `float()` refuses a text that starts with a digit, has no exponent, and holds a character that is neither a digit, a point, nor an underscore between two digits |
| `Money.Truncate` | Software/trabajadores/management/commands/importar_excel.py:406 | `int()` of a float truncates toward zero: the result is the whole part of the magnitude, with the sign |
| `Cells.ReadCell` | Software/trabajadores/management/commands/importar_excel.py:338-344 | a date cell comes back as the date; any other truthy cell as its stripped text; a falsy cell as "" |
| `Cells.ReadInt` | Software/trabajadores/management/commands/importar_excel.py:344 | an integer cell reads as its decimal text, and 0 reads as "" |
| `Cells.ReadAmount` | Software/trabajadores/management/commands/importar_excel.py:344 | a number cell reads as its shortest decimal text, and zero as "" |
| `Cells.ReadStr` | Software/trabajadores/management/commands/importar_excel.py:344 | a text without outer whitespace reads as itself |
| `Cells.ReadFlag` | Software/trabajadores/management/commands/importar_excel.py:344 | a boolean cell reads as "True" or "" |
| `Coercion.Strptime` | Software/trabajadores/management/commands/importar_excel.py:362-366 | a text is accepted by a format only if it contains that format's separator and is at most 10 characters |
| `Coercion.FirstFormat` | Software/trabajadores/management/commands/importar_excel.py:362-366 | the first format that accepts the text decides; None exactly when no format accepts it |
| `Coercion.ParseDate` | Software/trabajadores/management/commands/importar_excel.py:349-370 | a date cell is its date; "" and "N/A" are None; other texts go through the four formats in order |
| `Coercion.IsoRoundTrip` | Software/trabajadores/management/commands/importar_excel.py:362-364 | the YYYY-MM-DD text of a date parses back to the date |
| `Coercion.IsoCanonical` | Software/trabajadores/management/commands/importar_excel.py:362-364 | a 10-character text accepted by `%Y-%m-%d` is the canonical text of its date |
| `Coercion.DayFirstExample` | Software/trabajadores/management/commands/importar_excel.py:362-364 | "5/3/2025" is 5 March 2025, read day first |
| `Coercion.NonexistentDayExample` | Software/trabajadores/management/commands/importar_excel.py:362-370 | "2025-02-30" is refused by every format and gives None |
| `Coercion.NoFormatAccepts` | Software/trabajadores/management/commands/importar_excel.py:362-370 | a text no format accepts gives None |
| `Coercion.Separators` | Software/trabajadores/management/commands/importar_excel.py:387-394 | no comma is left after the separator rewrite, and a text without commas is unchanged |
| `Coercion.ParseDecimal` | Software/trabajadores/management/commands/importar_excel.py:372-398 | a result is normalised; a date, "" and "N/A" give None |
| `Coercion.CleanDecimal` | Software/trabajadores/management/commands/importar_excel.py:383-396 | a clean text is parsed as `float()` of its separator rewrite |
| `Coercion.PlainDecimal` | Software/trabajadores/management/commands/importar_excel.py:394-396 | a text with only points is passed to `float()` unchanged |
| `Coercion.ColombianAmount` | Software/trabajadores/management/commands/importar_excel.py:387-390 | digit groups joined by points and followed by a comma and decimals parse as the groups' digits with those decimals ("1.234.567,89" is 1234567.89) |
| `Coercion.ColombianSeparators` | Software/trabajadores/management/commands/importar_excel.py:388-390 | with both separators, points are deleted and the comma becomes the decimal point |
| `Coercion.CurrencySign` | Software/trabajadores/management/commands/importar_excel.py:385 | a leading "$ " does not change the parsed amount |
| `Coercion.PointGroupsRejected` | Software/trabajadores/management/commands/importar_excel.py:394-398 | "1.500.000", with points as thousands separators and no comma, is refused (None) |
| `Coercion.CommaGroupsRejected` | Software/trabajadores/management/commands/importar_excel.py:391-398 | "1,234,567", with commas as thousands separators, is refused (None) |
| `Coercion.AmountRoundTrip` | Software/trabajadores/management/commands/importar_excel.py:379-380 | a nonzero number cell parses back to its amount |
| `Coercion.IntAmountRoundTrip` | Software/trabajadores/management/commands/importar_excel.py:379-380 | a nonzero integer cell parses to that whole amount |
| `Coercion.ParseInt` | Software/trabajadores/management/commands/importar_excel.py:400-408 | "" and "N/A" are None; a result is the truncation of what `float(str(value))` reads |
| `Coercion.IntRoundTrip` | Software/trabajadores/management/commands/importar_excel.py:405-406 | a nonzero integer cell parses back to the integer |
| `Coercion.StampNotInt` | Software/trabajadores/management/commands/importar_excel.py:405-408 | a date cell is not an integer |
| `Coercion.LowerWord` | Software/trabajadores/management/commands/importar_excel.py:410-416 | any text that upper-cases to one of SÍ, SI, YES, TRUE, 1, X, ✓ is true |
| `Coercion.ParseBoolCaseInsensitive` | Software/trabajadores/management/commands/importar_excel.py:415-416 | upper-casing the text first does not change the answer |
| `Coercion.FlagRoundTrip` | Software/trabajadores/management/commands/importar_excel.py:410-416 | "X" is true and "" is false |
| `Coercion.BoolCellRoundTrip` | Software/trabajadores/management/commands/importar_excel.py:410-416 | a boolean cell parses as its own value |
| `Coercion.StampNotFlag` | Software/trabajadores/management/commands/importar_excel.py:415-416 | a date cell is false |
| `Coercion.MapTipoIdentificacion` | Software/trabajadores/management/commands/importar_excel.py:418-421 | a falsy value is CC |
| `Coercion.IdFallback` | Software/trabajadores/management/commands/importar_excel.py:423-441 | a value whose stripped upper case is a key of the mapping is that key's type, and any other value is CC |
| `Coercion.IdWord` | Software/trabajadores/management/commands/importar_excel.py:423-441 | a text whose upper case is a key of the mapping gives that key's code |
| `Coercion.IdCodeRoundTrip` | Software/trabajadores/management/commands/importar_excel.py:426-441 | each code maps to itself |
| `Coercion.IdLabelRoundTrip` | Software/trabajadores/management/commands/importar_excel.py:426-441 | each display label of `TIPO_IDENTIFICACION_CHOICES` maps to its code |
| `Coercion.StampIsCC` | Software/trabajadores/management/commands/importar_excel.py:423-441 | a date cell falls back to CC |
| `Coercion.MapTipoContrato` | Software/trabajadores/management/commands/importar_excel.py:153-164 | a falsy value, and any text whose upper case is not a key, is PRESTACION_SERVICIOS; a text whose upper case is a key is that key's type; only a date cell fails (it has no `upper()`) |
| `Coercion.ContractLabelRoundTrip` | Software/trabajadores/management/commands/importar_excel.py:153-164 | the upper-cased display label of each contract type maps back to that type |
| `Coercion.ContractCodeNotRecognised` | Software/trabajadores/management/commands/importar_excel.py:153-164 | a stored code such as "TERMINO_FIJO" is not a key, so it falls back to PRESTACION_SERVICIOS (APRENDIZAJE excepted) |
| `Trabajadores.IdChoicesDistinct` | Software/trabajadores/models.py:11-16 | the four identification codes, and their labels, are pairwise distinct |
| `Trabajadores.NameParts` | Software/trabajadores/models.py:98-107 | the full name has two to four parts, the first name first |
| `Trabajadores.NombreCompletoJoin` | Software/trabajadores/models.py:98-107 | `nombre_completo` is the present name parts (first name, second name, first surname, second surname) joined by single spaces |
| `Trabajadores.NombreCompletoEmptyIsNull` | Software/trabajadores/models.py:102-106 | an empty second name or surname is left out just like a null one |
| `Trabajadores.WorkerStrShape` | Software/trabajadores/models.py:89-96 | `__str__` is "surnames, names (numero)", each optional part present only when non-empty |
| `Trabajadores.Edad` | Software/trabajadores/models.py:109-116 | the age is the number of whole years to today: the r-th anniversary is on or before today and the next one after it; it is never negative for a birth on or before today |
| `Trabajadores.EdadUnique` | Software/trabajadores/models.py:114-116 | that anniversary property determines the age |
| `Trabajadores.EdadBirthday` | Software/trabajadores/models.py:114-116 | the age rises by exactly one on each birthday |
| `Contratacion.ContractChoicesDistinct` | Software/contratacion/models.py:95-101 | the five contract codes, and their labels, are pairwise distinct |
| `Contratacion.ContratoActivo` | Software/contratacion/models.py:161-168 | with an end date, active exactly when start ≤ today ≤ end; without one, exactly when start ≤ today; a missing start cannot be compared (None) |
| `Contratacion.DiasRestantes` | Software/contratacion/models.py:170-179 | None exactly without an end date; never negative; 0 exactly when the end is today or past; otherwise the days from today to the end |
| `Contratacion.DiasRestantesCountdown` | Software/contratacion/models.py:170-179 | before the end, the days left drop by one each day |
| `ContratacionViews.Keep` | Software/contratacion/views.py:34-38 | a queryset filter keeps exactly the rows that satisfy the predicate |
| `ContratacionViews.ContratosActivosMembers` | Software/contratacion/views.py:29-38 | a contract is listed exactly when start ≤ today and the end is null or ≥ today |
| `ContratacionViews.ActiveQueryAgrees` | Software/contratacion/views.py:34-38 | for a contract with a start date, the query agrees with `contrato_activo`; a contract without one is never listed |
| `ContratacionViews.PorTrabajadorMembers` | Software/contratacion/views.py:42-47 | exactly the contracts of worker pk are listed |
| `ContratacionViews.KeepOrdered` | Software/contratacion/models.py:154 | filtering keeps the model's default order: later year first, then later start date first, with missing start dates first or last as the database places NULL |
| `ContratacionViews.QueriesOrdered` | Software/contratacion/views.py:15-47 | `contratos_activos` and `por_trabajador` filter `self.queryset`, so both return their rows in the model's default order, later year first and then later start first |
| `Cronograma.Cronograma.constructor` | Software/cronograma/models.py:94-99 | a new row's year is the default 2025 |
| `Cronograma.Cronograma.Save` | Software/cronograma/models.py:149-153 | `save` sets the year to the month's year when a month is set, keeps it otherwise, and changes nothing else |
| `Cronograma.CreateRow` | Software/cronograma/models.py:149-153 | a row saved with a month stores that month's year and the given values |
| `CronogramaSerializers.MonthName` | Software/cronograma/serializers.py:30-34 | every month 1..12 has a non-empty name without spaces |
| `CronogramaSerializers.MonthNamesDistinct` | Software/cronograma/serializers.py:30-34 | the twelve names are pairwise distinct |
| `CronogramaSerializers.MesDisplayInjective` | Software/cronograma/serializers.py:28-35 | the label determines the month and the year |
| `Proyectos.SelectedCount` | Software/proyectos/models.py:72-82 | as many names are listed as flags are true |
| `Proyectos.SelectedInOrder` | Software/proyectos/models.py:72-82 | the names keep the fixed order of the checks |
| `Proyectos.SelectedHas` | Software/proyectos/models.py:72-82 | every true flag's name is listed |
| `Proyectos.SelectedOnly` | Software/proyectos/models.py:72-82 | only true flags' names are listed |
| `Proyectos.ActiveNamesExact` | Software/proyectos/models.py:72-82 | a project's name is listed exactly when its flag is true |
| `Proyectos.ActiveNamesCount` | Software/proyectos/models.py:72-82 | the list's length is the number of true flags, and it is a subsequence of the five names |
| `Proyectos.ProyectoStr` | Software/proyectos/models.py:71-85 | the appends build "nombre_completo - names joined by ', ' (anio)", or "Sin proyectos" when no name is listed |
| `Proyectos.DefaultFlagsLabel` | Software/proyectos/models.py:28-51 | with every flag at its default (false) the summary is "Sin proyectos" |
| `Store.MergedSocial` | Software/trabajadores/management/commands/importar_excel.py:235-247 | `update_or_create` replaces the seven imported fields and keeps the row's other fields |
| `Store.Database.CreateWorker` | Software/trabajadores/management/commands/importar_excel.py:148 | `create` appends the worker and returns the next id, without checking for duplicates |
| `Store.Database.PutContract` | Software/trabajadores/management/commands/importar_excel.py:173-184 | upsert keyed by (worker, year), the only change |
| `Store.Database.PutOnboarding` | Software/trabajadores/management/commands/importar_excel.py:194-203 | upsert keyed by (worker, year), the only change |
| `Store.Database.PutOffboarding` | Software/trabajadores/management/commands/importar_excel.py:213-222 | upsert keyed by (worker, year), the only change |
| `Store.Database.PutSocial` | Software/trabajadores/management/commands/importar_excel.py:235-247 | upsert keyed by (worker, year) that keeps an existing row's other fields |
| `Store.Database.PutProject` | Software/trabajadores/management/commands/importar_excel.py:259-263 | upsert keyed by (worker, year), the only change |
| `Store.Database.PutSchedule` | Software/trabajadores/management/commands/importar_excel.py:300-309 | upsert keyed by (worker, month), storing the month's year as `save` derives it |
| `Sheets.Stored` | Software/trabajadores/management/commands/exportar_excel.py:119-126 | a cell keeps its value, except that a text longer than 32767 characters is cut to that prefix |
| `Sheets.Sheet.Put` | Software/trabajadores/management/commands/exportar_excel.py:116 | the method succeeds exactly when the value is accepted, and the grid becomes the assignment |
| `Sheets.Sheet.MaxRow` | Software/trabajadores/management/commands/exportar_excel.py:99 | `max_row` is at least 1 and bounds every cell, and some cell lies on it when it is above 1 |
| `Sheets.Sheet.DeleteRows` | Software/trabajadores/management/commands/exportar_excel.py:100 | the rows are removed and the rows below move up |
| `Sheets.DeletedCells` | Software/trabajadores/management/commands/exportar_excel.py:100 | cells above the deleted rows stay; cells below move up by the count; nothing else remains |
| `Sheets.DeletedTail` | Software/trabajadores/management/commands/exportar_excel.py:99-100 | deleting from row 5 through `max_row` leaves only the rows above 5 |
| `Sheets.Sheet.ClearData` | Software/trabajadores/management/commands/exportar_excel.py:98-100 | the sheet keeps exactly its cells above row 5 |
| `Sheets.FirstPresent` | Software/trabajadores/management/commands/exportar_excel.py:84-88 | the first candidate present among the sheet names, or None when no candidate is present |
| `Sheets.IndexOf` | Software/trabajadores/management/commands/exportar_excel.py:70-71 | the first position of a name in `sheetnames` |
| `Importar.LastTwo` | Software/trabajadores/management/commands/importar_excel.py:60 | `str(anio)[-2:]`: the last two characters, or the whole text when it is shorter |
| `Importar.ChooseSheet` | Software/trabajadores/management/commands/importar_excel.py:55-77 | the choice is exactly `SheetChoiceOf`: a requested sheet is used when present and reported missing otherwise; without a request, the first present candidate is chosen, or else the first sheet; an empty workbook without a request has no sheet |
| `Importar.SheetChoiceMeaning` | Software/trabajadores/management/commands/importar_excel.py:55-77 | a request decides the choice on its own; without one, a used sheet is the first candidate present with every earlier candidate absent, or, when no candidate is present, the workbook's first sheet |
| `Importar.FindDataStart` | Software/trabajadores/management/commands/importar_excel.py:83-96 | None exactly when rows 1-10 have no "N°" or all-digit first cell; otherwise the first such row, plus one for "N°" |
| `Importar.InferDates` | Software/trabajadores/management/commands/importar_excel.py:121-134 | given dates are kept; a missing issue date is birth + 18 years up to 2025 and the birth date otherwise; a missing birth date is issue − 18 years; both missing give 1982-01-01 and 2000-01-01 |
| `Importar.InferDatesFails` | Software/trabajadores/management/commands/importar_excel.py:121-134 | inference raises exactly when it has to shift 29 February (or a year ≤ 18) by 18 years |
| `Importar.BaseMunicipio` | Software/trabajadores/management/commands/importar_excel.py:180 | the base municipality is stripped and upper-cased; a date cell raises |
| `Importar.ArlText` | Software/trabajadores/management/commands/importar_excel.py:245 | the ARL is upper-cased; a date cell raises |
| `Importar.MonthMunicipio` | Software/trabajadores/management/commands/importar_excel.py:294-304 | "N/A" and "X" in any case become ""; other texts are upper-cased; a date cell raises |
| `Importar.NoMunicipioAnyCase` | Software/trabajadores/management/commands/importar_excel.py:295-296 | "n/a", "x" and the other case variants are all cleared |
| `Importar.MonthColumn` | Software/trabajadores/management/commands/importar_excel.py:268-281 | the four columns of every month lie within 37..84, the block that follows the yearly sections |
| `Importar.MonthSlots` | Software/trabajadores/management/commands/importar_excel.py:268-292 | the twelve four-column slots are pairwise disjoint |
| `Importar.MonthSlotsCover` | Software/trabajadores/management/commands/importar_excel.py:267-281 | every column 37..84 lies in exactly the slot (c−37)/4 + 1 |
| `Importar.ParseMonth` | Software/trabajadores/management/commands/importar_excel.py:284-310 | a month reads as the first of that month with its cleaned values, and fails exactly when its municipality cell is a date |
| `Importar.ParseMonths` | Software/trabajadores/management/commands/importar_excel.py:268-310 | all twelve months of the year, in order, or a failure; an impossible year always fails |
| `Importar.MonthsFailDated` | Software/trabajadores/management/commands/importar_excel.py:289-296 | if the months fail, some month's municipality cell is a date |
| `Importar.DatedMonthFails` | Software/trabajadores/management/commands/importar_excel.py:289-296 | a date in any month's municipality cell fails the whole row |
| `Importar.ParseWorker` | Software/trabajadores/management/commands/importar_excel.py:121-148 | the worker fails exactly when date inference raises, and is created with the default year 2025 |
| `Importar.ParseFacts` | Software/trabajadores/management/commands/importar_excel.py:152-310 | the facts fail exactly when the contract type, base municipality or ARL cell is a date, or a month fails |
| `Importar.ParseRow` | Software/trabajadores/management/commands/importar_excel.py:108-318 | a row is skipped exactly when column 0 is falsy, fails before the worker is created exactly when date inference raises, and otherwise parses with all twelve months |
| `Importar.BadYearFails` | Software/trabajadores/management/commands/importar_excel.py:268-269 | a year that `datetime` refuses fails every row after its worker is created |
| `Importar.StoreRow` | Software/trabajadores/management/commands/importar_excel.py:148-310 | storing a parsed row creates the worker, upserts the five yearly sections and all twelve months |
| `Importar.StoreMonths` | Software/trabajadores/management/commands/importar_excel.py:283-310 | the month loop saves one schedule row per entry, in order, and changes nothing else |
| `Importar.ProcessRow` | Software/trabajadores/management/commands/importar_excel.py:108-318 | one row leaves the tables as its step; it raises the created counter exactly for a parsed row or one that failed after creating its worker, and the error counter exactly for a failed row |
| `Importar.ImportRows` | Software/trabajadores/management/commands/importar_excel.py:104-318 | the loop leaves the tables as the rows' fold; the two counters are the counts of created workers and of failed rows |
| `Importar.Titles` | Software/trabajadores/management/commands/importar_excel.py:64 | `wb.sheetnames` lists the sheet titles in order |
| `Importar.Handle` | Software/trabajadores/management/commands/importar_excel.py:38-332 | a missing file aborts with the tables unchanged; for an existing file the outcome follows the chosen sheet: an empty workbook crashes, a missing requested sheet is reported by name, and for a used sheet the import stops with no data start exactly when none of rows 1-10 holds the marker, and otherwise reads that sheet from the data start, the reported counts match, and `actualizados` is 0 |
| `Importar.MonthsDistinct` | Software/trabajadores/management/commands/importar_excel.py:268-281 | the twelve month keys of a row are distinct |
| `Importar.WithMonthsFrame` | Software/trabajadores/management/commands/importar_excel.py:298-310 | the month upserts touch only the current worker's schedule rows |
| `Importar.WithMonthsRows` | Software/trabajadores/management/commands/importar_excel.py:298-310 | each month read is stored under (worker, month) with the month's year |
| `Importar.SavedRow` | Software/trabajadores/management/commands/importar_excel.py:148-310 | a parsed row adds exactly one worker, its five yearly rows under (new id, year) and twelve schedule rows, and keeps every earlier schedule row |
| `Importar.SavedValid` | Software/trabajadores/management/commands/importar_excel.py:148-310 | storing a row keeps every yearly and monthly row attached to an existing worker |
| `Importar.ImportedValid` | Software/trabajadores/management/commands/importar_excel.py:108-318 | so does the whole import |
| `Importar.ImportedWorkers` | Software/trabajadores/management/commands/importar_excel.py:108-318 | the workers after the import are the old ones followed by the workers of the rows that committed, in row order |
| `Importar.CommittedCountExact` | Software/trabajadores/management/commands/importar_excel.py:119-149 | the number of committed rows is exactly the number of workers the import adds |
| `Importar.CreatedCountSplit` | Software/trabajadores/management/commands/importar_excel.py:147-149 | the printed `trabajadores_creados` is the committed rows plus the rows that failed after the worker was created |
| `Importar.LateFailureCounted` | Software/trabajadores/management/commands/importar_excel.py:147-164 | a row whose contract type cell is a date counts one created worker, but no worker remains |
| `Exportar.Overlay` | Software/trabajadores/management/commands/exportar_excel.py:116-211 | the grid with one row's written columns replaced and every other cell unchanged |
| `Exportar.FirstFailure` | Software/trabajadores/management/commands/exportar_excel.py:114-219 | the position of the first write that raises, or the length when none does |
| `Exportar.RowAfterOverlay` | Software/trabajadores/management/commands/exportar_excel.py:114-219 | a worker's writes leave the grid overlaid with the cells written before the first failure |
| `Exportar.RunOverlay` | Software/trabajadores/management/commands/exportar_excel.py:116-211 | writes that all succeed overlay the row with the last value written to each column |
| `Exportar.SucceedsPartial` | Software/trabajadores/management/commands/exportar_excel.py:116-211 | on success, the cells written so far are all the cells |
| `Exportar.WriteRow` | Software/trabajadores/management/commands/exportar_excel.py:114-219 | the write loop succeeds exactly when no write raises, and leaves the row as the writes up to the first failure made it |
| `Exportar.NumberedSucceeds` | Software/trabajadores/management/commands/exportar_excel.py:116 | writing the sequence number never raises, so a row succeeds exactly when its body does |
| `Exportar.ExportedStep` | Software/trabajadores/management/commands/exportar_excel.py:113-220 | each worker is written at row 5 + count with number count + 1, and count advances only when its whole row succeeds |
| `Exportar.ExportRows` | Software/trabajadores/management/commands/exportar_excel.py:110-220 | the loop leaves the sheet as that fold, and `count` is the number of workers that succeeded |
| `Exportar.ExportedShape` | Software/trabajadores/management/commands/exportar_excel.py:109-214 | rows above 5 are untouched, and new cells lie in rows 5 .. 5 + count |
| `Exportar.ExportedRows` | Software/trabajadores/management/commands/exportar_excel.py:109-214 | on a cleared sheet where every worker succeeds, row 5 + i holds exactly the i-th worker's cells, numbered i + 1, and no row beyond them |
| `Exportar.Kept` | Software/trabajadores/management/commands/exportar_excel.py:213-220 | the workers that succeed, one per success |
| `Exportar.StagedIsKept` | Software/trabajadores/management/commands/exportar_excel.py:213-220 | writing a worker's row only when its block succeeds is the same as exporting just the succeeding workers |
| `Exportar.StagedRows` | Software/trabajadores/management/commands/exportar_excel.py:109-220 | with that staging, row 5 + i holds exactly the i-th succeeding worker's cells and nothing lies past the last of them |
| `Exportar.ExportedOne` | Software/trabajadores/management/commands/exportar_excel.py:110-116 | the first worker goes to row 5 with number 1 |
| `Exportar.AfterFailure` | Software/trabajadores/management/commands/exportar_excel.py:213-220 | after a failed worker, the next one writes into the same row |
| `Exportar.StaleCellKept` | Software/trabajadores/management/commands/exportar_excel.py:213-220 | a cell a failed worker wrote and the next worker does not write stays in the next worker's row |
| `Exportar.StagedTwo` | Software/trabajadores/management/commands/exportar_excel.py:213-220 | with staging, that row holds only the next worker's cells |
| `Exportar.PhantomRow` | Software/trabajadores/management/commands/exportar_excel.py:116-220 | when the last worker fails, row 5 + count still holds the number count + 1 |
| `Exportar.WrittenNumber` | Software/trabajadores/management/commands/exportar_excel.py:116 | column 1 holds the number as soon as the first write is done |
| `Exportar.ExportMonthColumn` | Software/trabajadores/management/commands/exportar_excel.py:185-198 | the four columns of every month lie within 38..85, one past the import's indices |
| `Exportar.ExportIds` | Software/trabajadores/management/commands/exportar_excel.py:103-104 | exactly the workers with a contract for the year, in ascending id order |
| `Exportar.CommandBodyAfterNumber` | Software/trabajadores/management/commands/exportar_excel.py:116-211 | every write after the number is to column 2 or beyond |
| `Exportar.SectionsAfterNumber` | Software/trabajadores/management/commands/exportar_excel.py:119-182 | the identification and yearly sections write only columns 2 and beyond |
| `Exportar.MonthsAfterNumber` | Software/trabajadores/management/commands/exportar_excel.py:200-211 | so do the month slots |
| `Exportar.BadYearBody` | Software/trabajadores/management/commands/exportar_excel.py:185-186 | a year `datetime` refuses fails every worker |
| `Exportar.BadYearExportsNone` | Software/trabajadores/management/commands/exportar_excel.py:185-220 | such a year exports no worker |
| `Exportar.BadYearRow` | Software/trabajadores/management/commands/exportar_excel.py:116-220 | yet row 5 is left holding the number 1 |
| `Exportar.FirstRowNumbered` | Software/trabajadores/management/commands/exportar_excel.py:116-220 | when no worker succeeds and the last one fails, row 5 holds the number 1 |
| `Exportar.Without` | Software/trabajadores/management/commands/exportar_excel.py:69-72 | `del wb[name]` removes exactly that sheet and keeps the active index |
| `Exportar.Opened` | Software/trabajadores/management/commands/exportar_excel.py:62-80 | an existing output is opened (without the target sheet); otherwise the template; neither existing aborts |
| `Exportar.FormatSheet` | Software/trabajadores/management/commands/exportar_excel.py:82-91 | the first present of "NOVEDADES 2025 (2)", "NOVEDADES 2025", "NOVEDADES 2024" in that priority, every earlier name being absent, else the active sheet |
| `Exportar.Handle` | Software/trabajadores/management/commands/exportar_excel.py:44-234 | a missing template aborts; a workbook without a sheet to copy, or a title the sheet title setter refuses, raises and nothing is saved; otherwise the saved book is the opened one plus the new sheet, titled as the setter leaves it: the template copy cleared from row 5, with the year's workers written, and the printed count is their successes |
| `Exportar.TitleKept` | Software/trabajadores/management/commands/exportar_excel.py:94-95 | a valid target name that no title of the workbook, nor the copy's, has in any case is the new sheet's title |
| `Exportar.TitleClash` | Software/trabajadores/management/commands/exportar_excel.py:94-95 | a target name that a title of the workbook already has, ignoring case, is not the new sheet's title: the sheet gets the name followed by a number of at least 1 (a template holding "NOVEDADES 2025" with `--anio 2025` gives "NOVEDADES 2025" and a number) |
| `Exportar.ForbiddenTitle` | Software/trabajadores/management/commands/exportar_excel.py:94-95 | a target name with one of `\ * ? : / [ ]` (possible with `--sheet`) makes the title setter raise |
| `Exportar.SetTitle` | Software/trabajadores/management/commands/exportar_excel.py:94-95 | the title setter raises exactly for an empty title or a forbidden character; setting the current title keeps it; a new title goes through `avoid_duplicate_name` |
| `Exportar.AvoidDuplicate` | Software/trabajadores/management/commands/exportar_excel.py:94-95 | a title no existing title has in any case is kept; a clashing one gets a number of at least 1 appended |
| `Exportar.SavedBook` | Software/trabajadores/management/commands/exportar_excel.py:93-223 | the new sheet keeps the template's header rows and holds nothing past row 5 + count |
| `ExportarVista.AsWrittenPartial` | Software/trabajadores/views.py:538-556 | such a block writes exactly the identification columns before it fails |
| `ExportarVista.IdentityKeys` | Software/trabajadores/views.py:538-549 | the identification block writes columns 1-9 |
| `ExportarVista.AllFailSameColumns` | Software/trabajadores/views.py:636-642 | workers that all fail on the same columns leave only the last one's cells, in row 5 |
| `ExportarVista.AsWrittenExportsLastOnly` | Software/trabajadores/views.py:530-642 | as written, no worker counts, and the sheet ends with only the last worker's identification, numbered 1, in row 5 |
| `ExportarVista.FindCases` | Software/trabajadores/views.py:597-601 | a per-worker lookup finds no row, exactly one row, or several |
| `ExportarVista.ManyFails` | Software/trabajadores/views.py:597-642 | several rows raise and fail the worker |
| `ExportarVista.CorrectedBodies` | Software/trabajadores/views.py:530-635 | one block per worker in id order, every worker included with no year filter |
| `ExportarVista.CorrectedSucceeds` | Software/trabajadores/views.py:536-642 | a worker's block succeeds exactly when its identification, each section found and the 2025 months all succeed |
| `ExportarVista.CorrectedRows` | Software/trabajadores/views.py:524-642 | when every block succeeds, row 5 + i holds exactly the i-th worker's cells and every worker counts |
| `ExportarVista.FileName` | Software/trabajadores/views.py:648 | the download name has 45 characters |
| `ExportarVista.FileNameRoundTrip` | Software/trabajadores/views.py:648 | the name reads back as the moment it was made from |
| `ExportarVista.FileNameInjective` | Software/trabajadores/views.py:648 | different moments give different names |
| `ExportarVista.Respond` | Software/trabajadores/views.py:494-659 | 404 exactly without the template; 500 exactly without an active sheet; otherwise the template with its active sheet cleared from row 5 and the given blocks written from row 5, under the timestamped name |
| `ExportarVista.ExportView` | Software/trabajadores/views.py:494-659 | the view as written: that response with every worker's as-written block, so for a non-empty worker table whose identification cells are accepted the active sheet ends with its header rows and only the last worker's identification, numbered 1, in row 5 |
| `ExportarVista.CorrectedExportView` | Software/trabajadores/views.py:494-659 | the same response with each worker's full block, whose rows `ExportarVista.CorrectedRows` states |
| `TrabajadoresViews.PyIntRoundTrip` | Software/trabajadores/views.py:32 | `int(str(y))` is y |
| `TrabajadoresViews.GroupedInt` | Software/trabajadores/views.py:32 | `int()` reads digits grouped by an underscore as the digits run together |
| `TrabajadoresViews.PyInt` | Software/trabajadores/views.py:32 | `int()` refuses a text with an underscore that does not stand between two digits |
| `TrabajadoresViews.ListFilter` | Software/trabajadores/views.py:27-33 | an absent or empty `anio` does not filter; otherwise the filter is `int(anio)`, and a text `int` refuses raises ValueError |
| `TrabajadoresViews.ListWorkers` | Software/trabajadores/views.py:27-33 | the list is every worker without a filter, and exactly the workers of that year with one, in the queryset's order (a subsequence of it) |
| `TrabajadoresViews.OfYear` | Software/trabajadores/views.py:32 | exactly the workers whose `anio` is y |
| `TrabajadoresViews.SerializerYear` | Software/trabajadores/views.py:41-46 | the serializer's year is 2025 without the parameter and `int(anio)` with it |
| `TrabajadoresViews.GivenYearAgrees` | Software/trabajadores/views.py:27-46 | for a non-empty parameter, the list filter and the serializer fail together and agree on the year |
| `TrabajadoresViews.WrittenYear` | Software/trabajadores/views.py:27-46 | a written year is used by both |
| `TrabajadoresViews.EmptyParameter` | Software/trabajadores/views.py:30-45 | `?anio=` disables the list filter but makes the serializer's `int('')` raise |
| `TrabajadoresViews.BlankParameter` | Software/trabajadores/views.py:30-45 | an all-whitespace parameter raises in both |
| `RoundTrip.CarriesWritten` | Software/trabajadores/management/commands/exportar_excel.py:116-211 | a layout of distinct columns is read back cell by cell |
| `RoundTrip.TextBack` | Software/trabajadores/management/commands/exportar_excel.py:119-126 | a clean text survives export and import |
| `RoundTrip.DateBack` | Software/trabajadores/management/commands/exportar_excel.py:121-122 | a date, or its absence, survives export and import |
| `RoundTrip.AmountBack` | Software/trabajadores/management/commands/exportar_excel.py:133 | an amount written as a number, zero included, is read back as the same amount |
| `RoundTrip.IntBack` | Software/trabajadores/management/commands/exportar_excel.py:207 | a day count survives export and import |
| `RoundTrip.FlagBack` | Software/trabajadores/management/commands/exportar_excel.py:176-180 | "X" or "" is read back as the same flag |
| `RoundTrip.IdBack` | Software/trabajadores/management/commands/exportar_excel.py:119 | the written identification code maps back to itself |
| `RoundTrip.ContractTypeBack` | Software/trabajadores/management/commands/exportar_excel.py:131 | the written contract label maps back to its type |
| `RoundTrip.IdentityBack` | Software/trabajadores/management/commands/exportar_excel.py:119-126 | the identification columns parse back as the same worker, with the default year |
| `RoundTrip.ContractBack` | Software/trabajadores/management/commands/exportar_excel.py:129-136 | the contract columns parse back as the same contract |
| `RoundTrip.OnboardingBack` | Software/trabajadores/management/commands/exportar_excel.py:141-146 | the onboarding columns parse back as the same row |
| `RoundTrip.OffboardingBack` | Software/trabajadores/management/commands/exportar_excel.py:151-156 | the offboarding columns parse back, a zero settlement as null |
| `RoundTrip.SocialBack` | Software/trabajadores/management/commands/exportar_excel.py:161-169 | the social security columns parse back, null texts as "" |
| `RoundTrip.FlagsBack` | Software/trabajadores/management/commands/exportar_excel.py:174-180 | the five project checks parse back as the same flags |
| `RoundTrip.MonthBack` | Software/trabajadores/management/commands/exportar_excel.py:200-208 | a month's four columns parse back as the same schedule row |
| `RoundTrip.AllMonthsBack` | Software/trabajadores/management/commands/exportar_excel.py:185-211 | all twelve months parse back, a missing month as an empty row |
| `RoundTrip.FactsBack` | Software/trabajadores/management/commands/exportar_excel.py:128-211 | the year's sections parse back as the year's facts |
| `RoundTrip.ExportedRowBack` | Software/trabajadores/management/commands/exportar_excel.py:113-211 | the import parses the row the export writes for a worker whose block runs without raising as that worker and its facts for the year |
| `Empleados.TipoDocumento` | gestion-empleados/app/empleados/page.tsx:34-42 | each of the four codes shows its label; any other text is shown unchanged |
| `Empleados.TipoContrato` | gestion-empleados/app/empleados/page.tsx:44-53 | each of the five codes shows its label; any other text is shown unchanged |
| `Empleados.Matching` | gestion-empleados/app/empleados/page.tsx:144-149 | an employee is kept exactly when its lower-cased name contains the lower-cased query or its number contains the query |
| `Empleados.Search` | gestion-empleados/app/empleados/page.tsx:139-149 | a query that trims to "" keeps every employee; otherwise the filter above |
| `Empleados.Deduplicate` | gestion-empleados/app/empleados/page.tsx:151-162 | the `seenNames` loop keeps the first employee of each name, in order |
| `Empleados.FirstPerNameDistinct` | gestion-empleados/app/empleados/page.tsx:151-162 | after de-duplication no two entries share a name |
| `Empleados.FirstPerNameNames` | gestion-empleados/app/empleados/page.tsx:151-162 | every name of the filtered list is still present |
| `Empleados.FirstPerNameFirsts` | gestion-empleados/app/empleados/page.tsx:151-162 | each entry is the first employee of its name, and the entries keep the order of those first positions |
| `Empleados.SameName` | gestion-empleados/app/empleados/page.tsx:105-107 | exactly the employees of the full list that share the name |
| `Empleados.Page.ApplyFilter` | gestion-empleados/app/empleados/page.tsx:139-163 | the effect sets the shown list to the de-duplicated search result and changes nothing else |
| `Empleados.Page.Loaded` | gestion-empleados/app/empleados/page.tsx:121-137 | loading sets the list, and the filter effect follows |
| `Empleados.Page.Typed` | gestion-empleados/app/empleados/page.tsx:139-163 | typing sets the query, and the filter effect follows |
| `Empleados.Page.EmployeeClicked` | gestion-empleados/app/empleados/page.tsx:103-118 | more than one employee of that name in the full list opens the chooser with all of them; otherwise the employee's details open |
| `Empleados.ClickOutcome` | gestion-empleados/app/empleados/page.tsx:103-118 | another employee with the same name always opens the chooser; with distinct names the click finds only the clicked employee |
| `Dashboard.NameCount` | gestion-empleados/app/dashboard/page.tsx:89-94 | there are at most as many distinct names as records, and exactly as many when no name repeats |
| `Dashboard.TotalEmployees` | gestion-empleados/app/dashboard/page.tsx:89-91 | "Total Empleados" is at most the number of records, and equal to it exactly when names are distinct |
| `Dashboard.Insert` | gestion-empleados/app/dashboard/page.tsx:97-99 | inserting into a newest-first list keeps it newest first and adds exactly the record |
| `Dashboard.SortNewestFirst` | gestion-empleados/app/dashboard/page.tsx:97-99 | the sort is a permutation, newest creation first |
| `Dashboard.Distance` | gestion-empleados/app/dashboard/page.tsx:104 | `Math.abs` of the difference |
| `Dashboard.AgeMeaning` | gestion-empleados/app/dashboard/page.tsx:104-115 | the text shows days exactly from one day on, hours (1..23) exactly from one hour up to a day, and minutes below an hour; the count is the floor; days > 0 implies hours > 0 |
| `Dashboard.AgeText` | gestion-empleados/app/dashboard/page.tsx:108-115 | every text starts with "Hace " |
| `Dashboard.ReadAge` | gestion-empleados/app/dashboard/page.tsx:108-115 | whatever a text is read as writes back to that text |
| `Dashboard.TimeAgoRoundTrip` | gestion-empleados/app/dashboard/page.tsx:104-115 | every shown text reads back as the age it shows, so equal texts mean equal ages |
| `Dashboard.PluralEnding` | gestion-empleados/app/dashboard/page.tsx:110-112 | the plural "s" appears exactly when the count is above one |
| `Dashboard.RecentCount` | gestion-empleados/app/dashboard/page.tsx:101 | at most three activities, fewer only when there are fewer records |
| `Dashboard.Newest` | gestion-empleados/app/dashboard/page.tsx:97-101 | the first three of the sorted records, or all of them when there are fewer |
| `Dashboard.NewestAreNewest` | gestion-empleados/app/dashboard/page.tsx:97-101 | those are records of the list, newest first, and no record left out is newer than any of them |
| `Dashboard.RecentActivities` | gestion-empleados/app/dashboard/page.tsx:101-122 | one line per newest record: its name, "completó su registro" and its time-ago text |
| `Dashboard.Page.LoadData` | gestion-empleados/app/dashboard/page.tsx:77-124 | loading sets the 2024 records then the 2025 ones, the distinct-name total (never above the record total), and the recent activities |
| `AuthStore.Store.constructor` | gestion-empleados/lib/stores/authStore.ts:16-18 | the store starts with no user, no token and not authenticated |
| `AuthStore.Store.SetAuth` | gestion-empleados/lib/stores/authStore.ts:19-25 | sets the user and token and authenticates; in a browser it stores the token under "token" and persists the three fields |
| `AuthStore.Store.ClearAuth` | gestion-empleados/lib/stores/authStore.ts:26-32 | clears all three fields; in a browser it removes the stored token and persists the cleared fields |
| `AuthStore.Store.Rehydrate` | gestion-empleados/lib/stores/authStore.ts:34-41 | the persisted snapshot holds exactly user, token and isAuthenticated, and restores them; the invariant "authenticated exactly when a token is held" comes back exactly when the snapshot has it |

## Left out

- Workbook files and the HTTP response are left out: `load_workbook`, `os.path.exists`, `wb.save`, and the response body and headers. A workbook is a value (sheets, their grids and the active index), and whether a file exists is a parameter.
- `copy_worksheet` is taken to copy the template's cells; styles, column widths and merged cells are not modelled.
- Console output (`self.stdout.write`, `traceback.print_exc`) and the progress message every 20 workers are not modelled; the counts they print are.
- Floating point is not modelled. Amounts are exact decimals. `float()` is modelled as reading a decimal literal exactly. Within the double range that agrees with Python up to 15 significant digits but not for wider values; outside that range it does not agree at all (see the lines for `Money.FloatLiteral`, `Coercion.ParseDecimal` and `Coercion.ParseInt`). Python's `repr` of an amount written to a cell is taken to be its shortest decimal text.
- `datetime.strptime` is modelled only for the four formats the import tries, with numeric fields of one or two digits (four for the year). Locale and other directives are not modelled.
- The clock is a parameter: `date.today()` in the models and views, `datetime.now()` for the download name, and `new Date()` in the dashboard.
- ORM internals are reduced to map updates: `transaction.atomic`, `update_or_create` queries, foreign keys and database constraints. The import parses a whole row first and then applies it, which is what the rollback of a failed row amounts to. Database errors inside the month loop are not modelled; a month whose municipality cell is a date fails the row before that loop's own `try`.
- The CRUD actions of `TrabajadorViewSet` (`Software/trabajadores/views.py:49-491`), authentication and JWT, the API clients, admin classes and serializer field lists are not part of this model.
- The landing, layout and login pages and `smoothScroll.ts` are not part of this model.
- Choice lists are not enforced. Django validates `choices` only in form and model validation, which neither command runs. The import therefore stores any upper-cased municipality text, and the model keeps the 64 codes as `Contratacion.Municipios` without checking stored values against them. The schedule model's list is identical, so the model defines it once.
- `unique_together` on (trabajador, anio) and (trabajador, mes) is modelled by keying the tables on those pairs.
- Record datatypes only: the models of ingreso, retiro and seguridad_social, as the fields the commands read and write.
- The employees page's year selector, detail view, forms, animations and routing are not modelled. Only the list state, the filter effect and the click handler are.
- The dashboard's download button, statistics cards and menu are not modelled. Dates from the API arrive as milliseconds.
- `persist`'s JSON serialisation and storage back end are not modelled. The persisted state is a snapshot of the three fields, and `typeof window !== 'undefined'` is the constant `inBrowser`.
- Coercion.ParseBool: its own contract states only that a falsy value is false. The accepted words are stated by `Coercion.LowerWord`, `Coercion.FlagRoundTrip`, `Coercion.BoolCellRoundTrip` and `Coercion.ParseBoolCaseInsensitive`.
- Importar.ImportRows: reports `trabajadores_creados` as the source computes it, including rows that later rolled back. The exact number of committed workers is `Importar.CommittedCount`, proved by `Importar.CommittedCountExact`.
- Exportar.Handle: exports as the source does, with a failed worker's partial cells left behind. The staged export that writes only whole rows is `Exportar.ExportedStaged`, proved by `Exportar.StagedRows` and `Exportar.StagedIsKept`.
- Importar.FindDataStart: a number cell is recognised by ASCII digits only; Python's `isdigit()` also accepts other Unicode digits ('²', '٣'), which the model treats as text.
- Importar.BaseMunicipio: upper-cases only ASCII and Latin-1 letters, as `Text.UpperChar` does; Python's `upper()` also maps letters outside Latin-1 (Greek, Cyrillic, 'ÿ', 'µ', 'ſ') and turns 'ß' into "SS", which changes the length, and those mappings are not modelled.
- Importar.ArlText: upper-cases only ASCII and Latin-1 letters, as `Text.UpperChar` does; Python's `upper()` also maps letters outside Latin-1 (Greek, Cyrillic, 'ÿ', 'µ', 'ſ') and turns 'ß' into "SS", which changes the length, and those mappings are not modelled.
- Importar.MonthMunicipio: upper-cases only ASCII and Latin-1 letters, as `Text.UpperChar` does; Python's `upper()` also maps letters outside Latin-1 (Greek, Cyrillic, 'ÿ', 'µ', 'ſ') and turns 'ß' into "SS", which changes the length, and those mappings are not modelled.
- Coercion.MapTipoContrato: upper-cases only ASCII and Latin-1 letters, as `Text.UpperChar` does; Python's `upper()` also maps letters outside Latin-1 (Greek, Cyrillic, 'ÿ', 'µ', 'ſ') and turns 'ß' into "SS", which changes the length, and those mappings are not modelled.
- Coercion.MapTipoIdentificacion: upper-cases only ASCII and Latin-1 letters, as `Text.UpperChar` does; Python's `upper()` also maps letters outside Latin-1 (Greek, Cyrillic, 'ÿ', 'µ', 'ſ') and turns 'ß' into "SS", which changes the length, and those mappings are not modelled.
- Coercion.ParseBool: upper-cases only ASCII and Latin-1 letters, as `Text.UpperChar` does; Python's `upper()` also maps letters outside Latin-1 (Greek, Cyrillic, 'ÿ', 'µ', 'ſ') and turns 'ß' into "SS", which changes the length, and those mappings are not modelled.
- Empleados.Matching: lower-cases only ASCII and Latin-1 letters, as `Text.LowerChar` does; JavaScript's `toLowerCase` maps every Unicode letter, and 'İ' to two characters.
- Exportar.AvoidDuplicate: compares titles in lower case for ASCII and Latin-1 letters, and reads the numbers after a title as ASCII digits; openpyxl's case-insensitive match and `\d` cover all of Unicode.
- Money.FloatLiteral: does not read "inf", "infinity" or "nan" in any case, which `float()` accepts but an exact decimal cannot hold, and reads ASCII digits only, while `float()` also accepts other Unicode decimal digits. Underscores between digits are modelled.
- Money.FloatLiteral: reads every exponent exactly; `float()` overflows to infinity above about 1.8e308 ("1e400") and underflows to 0.0 below about 5e-324 ("1e-400"), which the model does not reproduce.
- Money.StrayCharRejected: a Unicode decimal digit other than 0-9 counts as a stray character here, while `float()` reads it as a digit.
- Coercion.ParseDecimal: reads amounts through `Money.FloatLiteral`, so the same text forms are left out.
- Coercion.ParseDecimal: returns the exact value of "1e400", where the source returns `inf` and saving the row then fails, and the exact tiny value of "1e-400", where the source gets 0.0, which is falsy, so 0 is stored.
- Coercion.ParseInt: reads numbers through `Money.FloatLiteral`, so the same text forms are left out.
- Coercion.ParseInt: returns the truncated exact value of "1e400", where `int(float(...))` raises OverflowError and the bare `except` (importar_excel.py:405-408) gives None.
- Coercion.Strptime: reads the date fields as ASCII digits; `strptime`'s `\d` also matches other Unicode decimal digits, so "2025-01-1٣" is 13 January 2025 in Python and None here.
- Empleados.TipoDocumento: an unknown code is shown unchanged; JavaScript's `tipos[tipo] || tipo` also finds the keys inherited from `Object.prototype` ("constructor", "toString"), for which it yields the inherited function instead of the code, and those keys are not modelled.
- Empleados.TipoContrato: an unknown code is shown unchanged; the same `Object.prototype` keys are not modelled.
- TrabajadoresViews.PyInt: reads ASCII digits only; `int()` also accepts other Unicode decimal digits. Underscores between digits are modelled.
- TrabajadoresViews.ListFilter: parses the parameter with `TrabajadoresViews.PyInt`, so non-ASCII digits are left out.
- TrabajadoresViews.SerializerYear: parses the parameter with `TrabajadoresViews.PyInt`, so non-ASCII digits are left out.
- Store.Database.PutContract: stores the salary as computed. The column keeps two decimal places, and the rounding to them happens in the database layer; its rounding mode depends on the back end and the Django version, so it is not modelled.
- Store.Database.PutOffboarding: stores the settlement as computed, without the database's rounding to two decimal places, for the same reason.
- Store.Database.PutSchedule: stores the month's salary, pay and other amounts as computed, without the database's rounding to two decimal places, for the same reason.

## Findings

| source | as written | input that shows it | evidently intended | confidence | as-written member | corrected member |
|---|---|---|---|---|---|---|
| Software/trabajadores/management/commands/importar_excel.py:147-149 | `trabajadores_creados` is incremented right after `Trabajador.objects.create`, inside the atomic block, before the later writes of the same row that can still raise | a row with number 1 and a date in column 9 (contract type): `.upper()` raises, the worker is rolled back, yet one worker is reported created | count only the workers whose row committed | not executed | `Importar.LateFailureCounted` | `Importar.CommittedCountExact` |
| Software/trabajadores/management/commands/exportar_excel.py:213-220 | a worker that raises after some writes leaves those cells in row `row_idx`, and the next worker reuses the row, overwriting only the columns it writes | two workers where the first has an onboarding row and an illegal control character in its EPS text, and the second has no onboarding row: the first's onboarding dates stay in the second's row; if the last worker fails, row 5 + count keeps a number with no worker | a row holds only the cells of the worker it is numbered for | not executed | `Exportar.StaleCellKept` | `Exportar.StagedRows` |
| Software/trabajadores/views.py:553-554 | `trabajador.contratacion` (and `.ingreso`, `.retiro`, `.seguridad_social`) name no attribute, because the related names are plural (Software/contratacion/models.py:82). The AttributeError escapes the `DoesNotExist` handler and is swallowed at line 640 | any non-empty worker table: every worker fails after its identification columns, `count` stays 0, and row 5 ends with only the last worker's identification, numbered 1 | look up each worker's row and write the full block, as the command does and as line 599 does for the project | not executed | `ExportarVista.AsWrittenExportsLastOnly` | `ExportarVista.CorrectedRows` |
