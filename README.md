# FestaUtils — a Dafny model of the party text renderers

`FestaUtils` (backend/festa/festa_utils.py) turns a party record, a `Festa`,
into two blocks of display text:

- `gerarConvite` renders the invitation: a banner, then the honoree's name,
  the venue, the date as `DD/MM/YYYY`, the time as 24-hour `HH:MM`, and the
  group link. A missing or empty link prints `Não informado` instead.
- `gerarPreferencias` renders the preferences: a banner, then the buffet items
  and the music styles, each list joined with `", "` in its given order.

Both are static methods that only read their argument. The model writes them
as pure Dafny functions, in four modules:

- `Wrappers` (wrappers.dfy) holds `Option`, used for the link that Python
  allows to be `None`.
- `Text` (text.dfy) holds substring occurrence (`OccursAt`, `Contains`),
  f-string interpolation (`Interpolate`: literal fragments with values in
  between) and Python's `str.join` (`Join`).
- `DateTime` (datetime.dfy) holds the `date` and `time` values with
  `datetime`'s validity rules. It renders `%d/%m/%Y` and `%H:%M` as
  zero-padded decimals (`PadLeft`, `Pad2`, `Pad4`, `FormatDate`,
  `FormatTime`). It also has parsers that read the digits back
  (`ParseDate`, `ParseTime`), which serve as the inverse in the round-trip
  lemmas.
- `FestaUtils` (festa_utils.dfy) holds the `Festa` record, the link fallback
  (`LinkOrDefault`) and the two renderers. Each renderer is `Interpolate`
  applied to the template's literal fragments, copied code point for code
  point (indentation, banner lines and emoji included), and to the fields in
  template order. The source file is stored with CRLF line endings. Python
  reads each of those line breaks inside the triple-quoted literal as a
  single `\n`, so the fragments use `\n`.

Each renderer is a Dafny function, so equal records always give equal text.
`ConviteReadsOnlyItsFields` and `PreferenciasReadOnlyTheirFields` also show
that each renderer depends only on the fields it prints.

Python's `or` treats an empty-string link as missing too, so it also gets the
placeholder.

## Model

| member | source | states |
|---|---|---|
| Text.Interpolate | backend/festa/festa_utils.py:6-16 | an f-string: the literal fragments with the values in between, in order; its length is the fragments' plus the values' |
| Text.InterpolateAt | backend/festa/festa_utils.py:6-16 | in an f-string, every interpolated value appears verbatim at its slot and the next literal fragment starts right behind it |
| Text.InterpolateInOrder | backend/festa/festa_utils.py:6-16 | the interpolated values appear in the result verbatim, in template order, without overlapping |
| Text.InterpolateFramed | backend/festa/festa_utils.py:20-27 | each value appears as one block with the literal fragment before it and the one after it |
| Text.InterpolateEnd | backend/festa/festa_utils.py:20-27 | the last value and the closing fragment end the text |
| Text.Join | backend/festa/festa_utils.py:24-25 | `', '.join(xs)` is as long as all elements together plus one separator between each adjacent pair |
| Text.JoinFew | backend/festa/festa_utils.py:24-25 | joining no elements gives the empty string; joining one element gives exactly that element, with no separator |
| Text.JoinSnoc | backend/festa/festa_utils.py:24-25 | appending an element to a non-empty list appends the separator and then that element |
| Text.JoinAt | backend/festa/festa_utils.py:24-25 | each element appears verbatim at its slot; the separator follows it exactly when another element comes next; the last element ends the text |
| DateTime.PadLeft | backend/festa/festa_utils.py:12-13 | zero-padding gives exactly `width` decimal digits that read back to the number |
| DateTime.PadLeftOfValue | backend/festa/festa_utils.py:12-13 | a digit string's value is below 10^width, and re-padding that value gives the same digit string |
| DateTime.Pad2 | backend/festa/festa_utils.py:13 | two decimal digits that read back to a number below 100 |
| DateTime.Pad4 | backend/festa/festa_utils.py:12 | four decimal digits that read back to a number below 10000 |
| DateTime.FormatDate | backend/festa/festa_utils.py:12 | `%d/%m/%Y` is 10 characters, `/` at indices 2 and 5, digits elsewhere, reading back to day, month and year |
| DateTime.FormatTime | backend/festa/festa_utils.py:13 | `%H:%M` is 5 characters, `:` at index 2, digits elsewhere, reading back to hour and minute |
| DateTime.ParseFormatDate | backend/festa/festa_utils.py:12 | reading the rendered date back gives the original date |
| DateTime.FormatParseDate | backend/festa/festa_utils.py:12 | a date read from DD/MM/YYYY text renders back to exactly that text |
| DateTime.ParseFormatTime | backend/festa/festa_utils.py:13 | reading the rendered time back gives the original time |
| DateTime.FormatParseTime | backend/festa/festa_utils.py:13 | a time read from HH:MM text renders back to exactly that text |
| DateTime.DateExample | backend/festa/festa_utils.py:12 | 10 May 2024 renders as `10/05/2024` |
| DateTime.TimeExample | backend/festa/festa_utils.py:13 | 15:30 renders as `15:30` |
| FestaUtils.LinkOrDefault | backend/festa/festa_utils.py:14 | a missing or empty link becomes `Não informado`; any other link is kept as it is; the result is never empty |
| FestaUtils.GerarConvite | backend/festa/festa_utils.py:5-16 | `Interpolate` of the six template fragments (matching the source code point for code point) and the five fields in template order: name, venue, `%d/%m/%Y` date, `%H:%M` time, link or placeholder; its length is exactly the fragments' plus the fields' |
| FestaUtils.ConviteFieldsInOrder | backend/festa/festa_utils.py:10-14 | the invitation contains the name, venue, date, time and link (or placeholder) verbatim, in that order, without overlapping |
| FestaUtils.ConviteShowsLink | backend/festa/festa_utils.py:14 | with a missing or empty link the invitation contains `Não informado`; otherwise it contains the link verbatim |
| FestaUtils.GerarPreferencias | backend/festa/festa_utils.py:19-27 | `Interpolate` of the three template fragments and the two lists, each joined with `", "`; accepts any record; its length is exactly the fragments' plus the two joined lists' |
| FestaUtils.PreferenciasLayout | backend/festa/festa_utils.py:20-27 | the header is followed at once by the joined buffet items and the music label; that label is followed at once by the joined music styles and the closing rule, which ends the text |
| FestaUtils.PreferenciasEmpty | backend/festa/festa_utils.py:24-25 | with both lists empty, rendering succeeds and each label is followed directly by the next line |
| FestaUtils.PreferenciasListsEveryItem | backend/festa/festa_utils.py:24-25 | every buffet item and every music style appears verbatim in the preferences |
| FestaUtils.ConviteReadsOnlyItsFields | backend/festa/festa_utils.py:4-16 | two renderable records that agree on name, venue, date, time and link give the same invitation, whatever their lists hold |
| FestaUtils.PreferenciasReadOnlyTheirFields | backend/festa/festa_utils.py:18-27 | any two records that agree on the buffet and music lists give the same preferences, whatever their other fields hold |
| FestaUtils.AnaConvite | backend/festa/festa_utils.py:5-16 | Ana's party at `Salão X` on 10/05/2024 at 15:30 with no link renders those five strings in order, the last being `Não informado` |
| FestaUtils.AnaPreferencias | backend/festa/festa_utils.py:19-27 | the same party's preferences contain `Salgados` and `Samba` |
| FestaUtils.PizzaBoloScenario | backend/festa/festa_utils.py:24-25 | buffet `["Pizza", "Bolo"]` and styles `["Pop", "Rock"]` render as `Pizza, Bolo` and `Pop, Rock` |

## Left out

- The `Festa` builder imported at backend/festa/festa_utils.py:1 is not part of this model. `Festa` is taken as a given record.
- DateTime.FormatDate: requires a year of four digits (1000 to 9999). Below 1000, the padding of `%Y` depends on the platform's C library, so the model does not cover those years. `FestaUtils.GerarConvite` inherits this requirement through `Renderable`.
- DateTime.FormatTime: keeps only hour and minute. Seconds, microseconds and time zone are never printed by `%H:%M`.
- The `strftime` locale is not modelled. `%d`, `%m`, `%Y`, `%H` and `%M` are taken to be plain decimal numbers.
- Exceptions from a `None` or wrongly typed `data` or `hora` are not modelled. The record's types rule those values out.
- Python truthiness of non-string link values is not modelled. The link is an optional string, so only `None` and `""` are falsy.
- The `TypeError` that `str.join` raises for non-string list items is not modelled. The lists hold strings by type.
- What callers do with the returned text (printing, sending, storing) is I/O outside this component.
