# readcomlin in Dafny

A model of the extraction core of readcomlin. The tool reads the text of an AFIP
"comprobante en línea" (an Argentine electronic receipt) and returns its data as a
record. Four parts are modelled:

- **`complinea` and `to_float`** (`ComprobanteLinea.dfy`, `Decimals.dfy`, `Records.dfy`).
  The 14 capture groups of the detection pattern become an 18-key dictionary.
  - Six identifiers are fixed-width slices of the 54-digit group 3.
  - `Numero_Comprobante` is group 1 without its first four characters.
  - `CAE_vto` is group 2 as it is.
  - Ten amounts come from groups 5 to 14, with the comma replaced by a dot.

  A regular-expression match is a `Groups` value. `MatchGroups` holds exactly what the
  pattern guarantees:
  - 14 groups;
  - group 1 is non-empty digits;
  - group 2 is a dd/dd/dddd date;
  - group 3 is 54 digits;
  - groups 4 to 14 are digits, a comma, digits.

  The dictionary display is `DictOf` over its items, in order. An amount field keeps the
  dot-decimal text handed to `float()`. `AmountValue` reads that text as an exact decimal
  (`Decimal(units, scale)`, kept canonical), so equal amounts have equal values. The
  records themselves compare that text: "27,00" and "27,0" give different records.
- **`patrones` and `get_pdf_data`** (`Extraction.dfy`). A first-match search over page
  texts and a table of (search, extract) pairs:
  - `GetPdfData` is the nested loop with its early return;
  - `Select` and `SearchPage` are its recursive specification;
  - `Hit` and `IsFirstHit` give an independent description of the first hit.

  `Patrones` is the one-entry table of readcomlin.py, with `complinea` as its extractor.
- **`_my_gettext`** (`Gettext.dfy`). A lookup in a fixed table, falling back to the
  string itself.
  - `TableAsWritten` is the table as the source spells it.
  - `Table` has the key of line 50 corrected (see Findings).
- **The registry tests** (`FormatTests.dfy`), with `Format` as the tests use it.
  - The class `ExtractionTest` holds `lstFormatos`.
  - `SetUpClass` assigns it in load order; the sorted copy is discarded.
  - The two test methods are loops whose outcome is stated against the predicates
    `SelfMatches` and `NoCrossMatch`.
  - `SampleSelectsOwnFormat` links these checks to the selection loop.

Page texts, the search function and the loaded formats are parameters.

What the code does, and does not do, in a few places a reader might expect otherwise:
- There is no thousands-separator handling. A string such as `"1.234,56"` never matches
  `\d+,\d+` (`ThousandsSeparatorIsNotAnAmount`).
- `setUpClass` discards the result of its `sorted(...)` call, so the formats keep load
  order (`ChecksIgnoreOrder`).
- Nothing checks that format names are unique. Two formats sharing a name escape both
  tests (`SharedNameEscapesChecks`).
- Text fields are passed through untrimmed.

## Model

| member | source | states |
|---|---|---|
| ComprobanteLinea.ReplaceComma | readcomlin.py:154 | `str.replace(',', '.')`: every comma becomes a dot. `ReplaceCommaKeepsOthers` and `ReplaceCommaOnNumeral` state its properties. |
| ComprobanteLinea.ReplaceCommaKeepsOthers | readcomlin.py:154 | `str.replace(',', '.')` keeps the length and every non-comma character. It turns each comma into a dot, leaves no comma, and is idempotent. |
| ComprobanteLinea.ReplaceCommaOnNumeral | readcomlin.py:154 | On digits,comma,digits the result has no comma and exactly one dot, at the comma's index. Both sides are unchanged, so it is a dot numeral of the same value. |
| ComprobanteLinea.ReplaceCommaExample | readcomlin.py:154 | "27,00" becomes "27.00". |
| ComprobanteLinea.ParseDecimal | readcomlin.py:154 | `float()` of a dot numeral is the canonical decimal equal to integer part + fraction / 10^(fraction digits). |
| ComprobanteLinea.ToFloat | readcomlin.py:153-154 | `to_float` of a comma numeral is the canonical decimal of the number it writes. |
| ComprobanteLinea.ToFloatExample27 | readcomlin.py:153-154 | `to_float("27,00")` is 27. |
| ComprobanteLinea.ToFloatExample100 | readcomlin.py:153-154 | `to_float("100,50")` is 100.5. |
| ComprobanteLinea.ThousandsSeparatorIsNotAnAmount | readcomlin.py:181 | "1.234,56" is not of the shape `\d+,\d+`. |
| ComprobanteLinea.WellFormed | readcomlin.py:180-184 | What a match of the pattern guarantees: 14 groups, group 1 digits, group 2 a dd/dd/dddd date, group 3 54 digits, groups 4 to 14 digits,comma,digits. `MatchGroups` is the type of such matches. `AmountGroups` and `NumeroAndExpiryShapes` state its consequences. |
| ComprobanteLinea.AmountGroups | readcomlin.py:181-184 | On a match, each of groups 4 to 14 is digits, one comma, digits. |
| ComprobanteLinea.DropPrefix | readcomlin.py:160 | `s[4:]` is empty when `s` has at most 4 characters, and otherwise the rest after the first 4. |
| ComprobanteLinea.SplitBlock | readcomlin.py:157-164 | The six slices of group 3 that `complinea` takes. `SplitBlockTiles` and `SplitBlockIgnoresLastDigit` state their properties. |
| ComprobanteLinea.SplitBlockTiles | readcomlin.py:157-164 | The six slices of group 3 have widths 14, 11, 2, 4, 14 and 8 and are all digits. They are contiguous from index 0 and concatenate to group3[0:53]. |
| ComprobanteLinea.SplitBlockIgnoresLastDigit | readcomlin.py:157-164 | Index 53 of group 3 is never read: blocks equal on [0:53] give equal slices. |
| ComprobanteLinea.Complinea | readcomlin.py:151-176 | `complinea`: the 18-key dictionary display built from the groups. `RecordHasEighteenKeys`, `IdentifiersFromGroup3`, `NumeroAndExpiryFromGroups1And2`, `AmountsFromGroups5To14`, `MatchAmountValuesAreToFloat`, `IgnoresGroup4AndLastDigit` and `RecordDeterminesBlockPrefix` state its properties. |
| ComprobanteLinea.FieldNamesDistinct | readcomlin.py:156-175 | The dictionary display has 18 distinct keys. |
| ComprobanteLinea.ItemAt | readcomlin.py:156-176 | Each key of the display is present and holds the value written next to it. |
| ComprobanteLinea.AmountAt | readcomlin.py:165-174 | Each amount key is present and holds its amount value. |
| ComprobanteLinea.RecordHasEighteenKeys | readcomlin.py:156-176 | Whatever the groups contain, the record's key set is exactly the 18 names and its size is 18. |
| ComprobanteLinea.IdentifiersFromGroup3 | readcomlin.py:157-164 | `CAE_nro`, `CUIT_Emisor`, `Codigo_Comprobante`, `Punto_Venta`, `CAE` and `Fecha_Emision` are group3 [0:14], [14:25], [25:27], [27:31], [31:45] and [45:53]. |
| ComprobanteLinea.NumeroAndExpiryFromGroups1And2 | readcomlin.py:160-161 | `Numero_Comprobante` is group 1 minus its first four characters, empty when group 1 has at most four. `CAE_vto` is group 2 unchanged. |
| ComprobanteLinea.NumeroAndExpiryShapes | readcomlin.py:160-161 | On a match, `Numero_Comprobante` is all digits and `CAE_vto` is a dd/dd/dddd date. |
| ComprobanteLinea.AmountsFromGroups5To14 | readcomlin.py:165-174 | The ten amount keys, in source order, hold groups 5 to 14 in order, with the comma replaced by a dot. |
| ComprobanteLinea.OtrosTributosFromGroup12 | readcomlin.py:172 | `Otros_Tributos` comes from group 12, not from group 4. |
| ComprobanteLinea.AmountValue | readcomlin.py:154 | The number an amount field denotes is `float()` of its text, read exactly. |
| ComprobanteLinea.AmountValuesAreToFloat | readcomlin.py:165-174 | For an amount group, the field holds a dot numeral that denotes `to_float` of the group. |
| ComprobanteLinea.MatchAmountValuesAreToFloat | readcomlin.py:181-184 | On a match, every amount field denotes `to_float` of its group. |
| ComprobanteLinea.IgnoresGroup4AndLastDigit | readcomlin.py:156-176 | Two matches that differ only in group 4 and in index 53 of group 3 give the same record. |
| ComprobanteLinea.RecordDeterminesBlockPrefix | readcomlin.py:157-164 | Equal records come from equal group3[0:53]. |
| Records.Zip | readcomlin.py:156-175 | The keys of the display's items are its keys, in order. |
| Records.DictOf | readcomlin.py:156-175 | A key is in the dictionary exactly when it is one of the display's keys. |
| Records.DictOfAt | readcomlin.py:156-175 | With distinct keys, every item can be looked up under its key. |
| Records.DictOfSize | readcomlin.py:156-175 | With distinct keys, the dictionary has one entry per item. |
| Decimals.Normalize | readcomlin.py:154 | Dropping trailing fractional zeros keeps the value and gives the canonical form. |
| Decimals.CanonicalUnique | readcomlin.py:154 | Canonical decimals are equal exactly when they have the same value, as floats compare. |
| Extraction.SearchPage | readcomlin.py:193-196 | The inner loop of `get_pdf_data`: the first pattern, in table order, that matches the page. `SearchPageFirst`, `SearchPageAt` and `SearchPageIgnoresLaterPatterns` state its properties. |
| Extraction.Select | readcomlin.py:191-197 | The outer loop: the first page with a result, or None. `SelectNoneIff`, `SelectFirstHit`, `SelectSomeHasFirstHit` and `SelectIgnoresLaterPages` state its properties. |
| Extraction.GetPdfData | readcomlin.py:187-197 | The nested loop with its early return computes `Select(pages, pats)`. |
| Extraction.SearchPageFirst | readcomlin.py:193-196 | A page gives nothing exactly when no pattern matches it. Otherwise it gives the extract of the first matching pattern in table order. |
| Extraction.SearchPageAt | readcomlin.py:193-196 | A pattern that matches, with no earlier pattern matching, decides the page. |
| Extraction.SelectNoneIff | readcomlin.py:191-197 | `get_pdf_data` gives None exactly when no pattern matches any page. |
| Extraction.SelectFirstHit | readcomlin.py:191-196 | The result is the extract of the first hit. The first hit is the earliest page with a match, and within it the first pattern that matches. |
| Extraction.SelectSomeHasFirstHit | readcomlin.py:191-196 | Every result comes from a first hit. |
| Extraction.FirstHitOf | readcomlin.py:191-196 | Whenever some pattern matches some page, there is a first hit. |
| Extraction.FirstHitUnique | readcomlin.py:191-196 | The first hit is unique, so the choice is determined. |
| Extraction.SelectIgnoresLaterPages | readcomlin.py:191-196 | Once a prefix of the pages gives a result, later pages do not change it. |
| Extraction.SearchPageIgnoresLaterPatterns | readcomlin.py:193-196 | Once a page gives a result, patterns after the winning one do not change it. |
| Extraction.Patrones | readcomlin.py:179-185 | `patrones`: the one pattern, its matches handed to `complinea`. `PatronesNoneIff`, `PatronesFirstMatch` and `PatronesRecordKeys` state its properties. |
| Extraction.PatronesNoneIff | readcomlin.py:179-197 | With `patrones`, the result is None exactly when the pattern matches no page. |
| Extraction.PatronesFirstMatch | readcomlin.py:179-197 | With `patrones`, a result is `complinea` of the match on the first page that matches. |
| Extraction.PatronesRecordKeys | readcomlin.py:179-197 | A record found through `patrones` has exactly the 18 keys. |
| Gettext.MyGettextAsWritten | readcomlin.py:42-57 | `_my_gettext` as written: a lookup in `TableAsWritten`, the table with line 50's key as Python joins it, falling back to the string. `MyGettextTranslatesKeys`, `MyGettextIdempotent` and `VersionHelpFallsThroughAsWritten` state its properties. |
| Gettext.MyGettext | readcomlin.py:42-57 | `_my_gettext` with line 50's key corrected. `MyGettextTranslatesKeys`, `MyGettextIdempotent` and `VersionHelpTranslated` state its properties. |
| Gettext.LookupTranslatesKeys | readcomlin.py:55-57 | For any table none of whose entries is a key, a key becomes its entry and the string changes exactly when it is a key. |
| Gettext.LookupIdempotent | readcomlin.py:55-57 | For any such table, translating twice is translating once. |
| Gettext.MyGettextTranslatesKeys | readcomlin.py:44-57 | For the table as written and for the corrected one, a key becomes its entry, and the string changes exactly when it is a key. |
| Gettext.NoEntryIsAKey | readcomlin.py:44-53 | In the table as written and in the corrected one, no translation is itself a key. |
| Gettext.MyGettextIdempotent | readcomlin.py:44-57 | As written and corrected, translating twice is translating once. |
| Gettext.VersionHelpFallsThroughAsWritten | readcomlin.py:50 | As written, argparse's "show program's version number and exit" is not a key and is returned unchanged. |
| Gettext.ApostropheLessKeyAsWritten | readcomlin.py:50 | As written, the key that is translated is "show programs version number and exit". |
| Gettext.VersionHelpTranslated | readcomlin.py:50 | With the corrected key, argparse's help text is translated, and the two tables agree on every other string. |
| FormatTests.SelfMatches | tests/test_readcomlin.py:22-25 | The condition `test_each_format_versus_itself` asserts for every format: `get_data` of its sample is its `sample_ret`. |
| FormatTests.NoCrossMatch | tests/test_readcomlin.py:27-31 | The condition `test_each_format_versus_others` asserts: no format accepts the sample of a format with another name. |
| FormatTests.OtherIndices | tests/test_readcomlin.py:30 | The comprehension keeps, in order, exactly the formats whose name differs. |
| FormatTests.ExtractionTest.SetUpClass | tests/test_readcomlin.py:33-36 | `_lst_formatos` is the loaded list in load order. |
| FormatTests.ExtractionTest.TestEachFormatVersusItself | tests/test_readcomlin.py:22-25 | The test passes exactly when every format reproduces its sample. On failure it reports "<nombre> not match!" for the first format that does not. |
| FormatTests.ExtractionTest.TestEachFormatVersusOthers | tests/test_readcomlin.py:27-31 | The test passes exactly when no format accepts the sample of a format with another name. On failure it reports "<f1> vs <f2> match!" for such a pair. |
| FormatTests.ChecksIgnoreOrder | tests/test_readcomlin.py:35-36 | Neither check depends on the order of the list, so the discarded sort changes nothing. |
| FormatTests.AsPatterns | tests/test_readcomlin.py:22-31 | The link from the tested formats to the selection loop: each format is a pattern that searches with its `get_data` and keeps what it finds. `SampleSelectsOwnFormat` uses it. |
| FormatTests.SampleSelectsOwnFormat | tests/test_readcomlin.py:22-31 | With both checks passing and unique names, first-match selection over the formats in any order, on a one-page document holding a format's sample, gives that format's expected result. |
| FormatTests.SharedNameEscapesChecks | tests/test_readcomlin.py:30 | Two formats sharing a name pass both checks although one accepts the other's sample. Selection on that sample can then give the wrong format's result. |

## Left out

- PDF reading (`open`, `PdfFileReader`, `extractText`, readcomlin.py:189-192): foreign library I/O. The page texts are a parameter.
- The regular-expression engine (`re.compile`, `re.search`, the greedy `.+`, the unescaped `.` in "Comp. Nro", "IVA 10.5%" and "IVA 2.5%"): a match is an abstract `Groups` value. The search is a parameter, and `MatchGroups` states what a match guarantees.
- `\d` in Python 3 matches any Unicode decimal digit. The model takes ASCII digits only.
- Binary floating point: `float()` is read as an exact decimal, so rounding is not modelled.
- Records: an amount field keeps the dot-decimal text handed to `float()`. `AmountValue` gives its number. Record equality in the test model therefore compares that text, not a float.
- ToFloat: defined only on digits, comma, digits, the only strings the pattern lets reach it. `float()`'s errors and other accepted spellings are not modelled.
- Complinea: requires only 14 groups and a 54-character group 3, which every match has. Python's behaviour on other groups is not modelled.
- `expand_filename`, `init_argparse`, `showerror`, the `__main__` block, output-file writing and the import-failure handler: command-line plumbing and I/O.
- The installation of `_my_gettext` as `gettext.gettext` (readcomlin.py:59) and `textdomain`: global mutation of a library.
- `load_plugins` is not part of this model. The loaded formats are a parameter of `SetUpClass`.
- The `sorted(...)` call in `setUpClass`: its result is discarded, so it is not computed.
- Key order of the record: Python's dict keeps insertion order, which `print(data)` at readcomlin.py:219 shows. `Record` is an unordered `map`, so the order is not modelled.
- unittest machinery: a failed assertion is `Fail(message)` carrying the test's own message. unittest's wording around it is not modelled.
- FormatTests.ExtractionTest.TestEachFormatVersusOthers: on failure it states that the message names a pair that fails the check, not that it is the first such pair in loop order.

## Findings

| source | as written | input that shows it | evidently intended | confidence | as-written member | corrected member |
|---|---|---|---|---|---|---|
| readcomlin.py:50 | The key `'show program''s version number and exit'` is two adjacent literals. Python joins them into "show programs version number and exit", with no apostrophe. | argparse's `--version` help "show program's version number and exit" is returned untranslated. | The key "show program's version number and exit", so that it is translated to "Mostrar la versión del programa y salir". | high; not executed. Latent in this program: readcomlin.py:99-103 gives `--version` its own help text, so argparse's default is never looked up here. | Gettext.VersionHelpFallsThroughAsWritten | Gettext.VersionHelpTranslated |
