# PDC client image plugin, modelled in Dafny

This project models the decision and formatting logic of the `image` plugin of
the PDC (Product Definition Catalog) command-line client. It covers three pieces:

- `size_format` turns a byte count into a text like `1.5 KiB`. It divides by
  1024 while the value is at least 1024 and stops at the `Ti` prefix.
- `_print_image_list` prints the image listing. The column titles and an
  empty line come before the first record only. Then comes one line per
  record, with an optional SHA256 column after an 80-character file-name field.
- `image_info` builds the query filters, reads the count of matches and
  either reports "Not found", lists ambiguous candidates or prints the detail
  report of the single image.

Printing is modelled as a returned sequence of lines. Each element is the
argument of one Python `print` call, without its newline. So `print()` is `""`,
and `print('\nChecksums:')` is the single element `"\nChecksums:"`.
`sys.exit(1)` becomes an `Exit(lines, 1)` outcome. The calls to the PDC
service are parameters of the model: `lookup` maps a filter dictionary to a
`Response(count, results)`. `utc` stands for `datetime.utcfromtimestamp`.
It gives the text of an epoch, or `None` where that call raises (an epoch
outside the years 1 to 9999). Then the outcome is `TimestampError` and
nothing is printed.

Files:

- `format.dfy` (module `Format`): the parts of `str.format` used here. These are
  `str()` of an integer, a minimum field width on a string (left-aligned,
  padded, never truncated) and `.1f` on an exact non-negative number
  (rounded to tenths, ties to even).
- `size_format.dfy` (module `Sizes`): `size_format`. It is a loop method
  (`SizeFormat`) proved against the specification functions `UnitIndex`,
  `Magnitude` and `SizeText`.
- `images.dfy` (module `Images`): the image record.
- `image_list.dfy` (module `ImageListing`): `_print_image_list` as a loop
  method with a `startLine` flag (`PrintImageList`), proved against
  `ListingLines`. It also holds the text/JSON switch of `image_list`.
- `image_info.dfy` (module `ImageInfo`): the filters, the dispatch on the
  count and the report layout, all as functions.

`size_format` divides exactly on rationals (Dafny `real`). For 1024^4 bytes
the code prints `1.0 TiB`, since four divisions by 1024 leave 1. It does not
print `1024.0 TiB`. That text belongs to 1024^5 bytes. `Sizes.SizeTextTebi`
proves both.

## Model

| member | source | states |
|---|---|---|
| `Sizes.SizeFormat` | pdc_client/plugins/image.py:24-31 | The loop over "", Ki, Mi and Gi with its early return yields exactly `SizeText(n)`: the prefix of `UnitIndex(n)` and the text of `n / 1024^UnitIndex(n)`. |
| `Sizes.UnitIndexIsLeast` | pdc_client/plugins/image.py:26-31 | The chosen prefix index k is the least one: n >= 1024^j for every j in 1..k, and n < 1024^(k+1) unless k is Ti. |
| `Sizes.UnitIndexOf` | pdc_client/plugins/image.py:26-31 | Conversely, any k <= 4 with those two properties is the chosen prefix, so the prefix is characterised in both directions. |
| `Sizes.PlainBytes` | pdc_client/plugins/image.py:27-29 | The plain `B` unit is chosen exactly when n < 1024, and then n is shown unscaled. |
| `Sizes.MagnitudeRange` | pdc_client/plugins/image.py:26-31 | Below Ti the magnitude is below 1024. Above plain bytes it is at least 1. Ti is chosen exactly when n >= 1024^4, and then the magnitude is n / 1024^4 with no upper bound. |
| `Sizes.SizeTextBytes` | pdc_client/plugins/image.py:27-29 | 0 -> `0.0 B` and 1023 -> `1023.0 B`. |
| `Sizes.SizeTextKibi` | pdc_client/plugins/image.py:27-30 | 1024 -> `1.0 KiB`, 1280 -> `1.2 KiB` (a tie, rounded to even) and 1536 -> `1.5 KiB`. |
| `Sizes.SizeTextTebi` | pdc_client/plugins/image.py:30-31 | 1024^4 -> `1.0 TiB` and 1024^5 -> `1024.0 TiB`: the prefix stops at Ti. |
| `Sizes.Pow1024Monotone` | pdc_client/plugins/image.py:26-30 | Powers of the 1024 factor grow with the exponent, so the unit thresholds are ordered. |
| `Format.RoundHalfEven` | pdc_client/plugins/image.py:25 | The result is within 1/2 of x, and an exact tie goes to the even neighbour. |
| `Format.RoundHalfEvenUnique` | pdc_client/plugins/image.py:25 | Those two properties determine the rounding completely. |
| `Format.OneDecimalReadsBack` | pdc_client/plugins/image.py:25 | The `.1f` text has the form digits, point, digit. It reads back as the tenths of x rounded half-even, so it is within 0.05 of x. |
| `Format.NatToString` | pdc_client/plugins/image.py:106-108 | `str()` of a count is non-empty decimal digits with no leading zero (except `0` itself). |
| `Format.ParseNatToString` | pdc_client/plugins/image.py:106-108 | Reading the decimal text of n back gives n, so the printed numbers are faithful. |
| `Format.IntToStringReadsBack` | pdc_client/plugins/image.py:106-107 | `str()` of an int starts with `-` exactly for negatives, and its digits read back as the absolute value, with no leading zero (except `0` itself). |
| `Format.LeftJustify` | pdc_client/plugins/image.py:63 | A width on a string pads with spaces on the right up to the width and never truncates: the text is kept as a prefix and the rest is spaces. |
| `ImageListing.Row` | pdc_client/plugins/image.py:61-63 | Without SHA256 a row is just the file name. With it, the name is followed by spaces up to column 80 (a longer name is kept whole), and the SHA256 ends the line. |
| `ImageListing.PrintImageList` | pdc_client/plugins/image.py:60-70 | The loop with the `start_line` flag produces exactly `ListingLines(images, withSha)`. |
| `ImageListing.ListingShape` | pdc_client/plugins/image.py:64-70 | No records give no lines at all. m records give m + 2 lines: the column titles, an empty line, then record i's row at line i + 2, in input order. |
| `ImageListing.RowsAt` | pdc_client/plugins/image.py:65-70 | Row i of the record rows is the row of record i. |
| `ImageListing.RowsSnoc` | pdc_client/plugins/image.py:65-70 | One more record appends exactly its row to the rows printed so far. |
| `ImageListing.ImageList` | pdc_client/plugins/image.py:72-79 | JSON mode hands over the records unchanged and prints no listing. Text mode prints exactly `ListingLines` of the records, the listing `ListingShape` describes: nothing for no records, m + 2 lines for m records. |
| `ImageInfo.Filters` | pdc_client/plugins/image.py:82-84 | `file_name` is always the given name. `sha256` is present exactly when a non-empty value was given, and then holds that value. There are no other keys. |
| `ImageInfo.Info` | pdc_client/plugins/image.py:81-99 | It exits exactly when the count is 0 or above 1, always with code 1. An IndexError happens exactly when the single-match path finds no results. JSON mode returns `results[0]`. Outside JSON mode the timestamp conversion fails exactly when `utc` gives `None`, and a report appears only outside JSON mode. |
| `ImageInfo.InfoNotFound` | pdc_client/plugins/image.py:86-88 | Count 0 prints the single line `Not found` and exits with 1. |
| `ImageInfo.InfoAmbiguous` | pdc_client/plugins/image.py:89-92 | Count > 1 prints the ambiguity message, then the candidates with SHA256 (titles, empty line, one row per result in order), and exits with 1. |
| `ImageInfo.InfoSingle` | pdc_client/plugins/image.py:93-99 | On the single-image path (count 1, or a negative count) JSON mode returns the record itself. Otherwise an unconvertible mtime gives `TimestampError` with nothing printed. Any other mtime gives the report, which runs past its 15 fixed lines exactly when the record has composes. |
| `ImageInfo.FieldReadsBack` | pdc_client/plugins/image.py:101 | In `'{0:15} {1}'` a label of at most 15 characters comes first and is padded with spaces through column 16, so the line is the label's 16-column prefix followed by the value. |
| `ImageInfo.ChecksumReadsBack` | pdc_client/plugins/image.py:114-117 | In `' {0:7} {1}'` a space and the label come first, padded with spaces through column 9, and the checksum follows. |
| `ImageInfo.ReportLines` | pdc_client/plugins/image.py:101-122 | The report has at least its fifteen fixed lines. The lemmas below state every line. |
| `ImageInfo.ReportIdentity` | pdc_client/plugins/image.py:101-105 | Report lines 0-3 are labelled `File Name`, `Image Type`, `Image Format` and `Arch`, and carry the file name, image type, image format and arch from column 16. |
| `ImageInfo.ReportMeasures` | pdc_client/plugins/image.py:106-108 | Line 4, labelled `Disc`, is `N / M` for the disc position. Line 5, labelled `Modified`, is the raw epoch with the UTC text in parentheses. Line 6, labelled `Size`, is the raw byte count with `size_format`'s text in parentheses. |
| `ImageInfo.ReportFlags` | pdc_client/plugins/image.py:109-112 | Line 7, labelled `Bootable`, reads `yes` exactly for a bootable image, else `no`. Lines 8-10, labelled `Volume ID`, `Implant MD5` and `Subvariant`, carry those fields from column 16. |
| `ImageInfo.ReportChecksums` | pdc_client/plugins/image.py:114-117 | Line 11 is the `Checksums:` heading after an empty line. Lines 12-14 are labelled `MD5`, `SHA1` and `SHA256` and carry those checksums from column 9. |
| `ImageInfo.ReportComposes` | pdc_client/plugins/image.py:119-122 | The report has 15 lines plus, only for a non-empty composes list, the `Used in composes:` heading and one ` * c` line per compose in order. |

## Left out

- `register`, the argparse setup and `extract_arguments` (`pdc_client/plugins/image.py:35-58`, `73`): they belong to the CLI framework of `pdc_client.plugin_helpers`, which is not part of this model.
- The HTTP client calls `get_paged` and `images._` (`pdc_client/plugins/image.py:74`, `85`): these are the service, its pagination and its authentication. The lookup is a parameter that returns `Response(count, results)`. The paged listing is a finite sequence of records.
- `json.dumps` (`pdc_client/plugins/image.py:76`, `96`): JSON mode is modelled as handing over the record or records unchanged, with no other text.
- `datetime.utcfromtimestamp` (`pdc_client/plugins/image.py:99`): the calendar conversion is a parameter `utc`. Which epochs it rejects is that parameter's business. The raw epoch is kept in the `Modified` line.
- `Sizes.SizeFormat`: Python divides in floating point, which is exact for counts below 2^53. Above that, the int-to-float conversion can round. The model divides exactly. Byte counts are natural numbers, so negative sizes are not modelled.
- `Sizes.SizeFormat`: for a size of at least 2^1024, Python's `num /= factor` raises OverflowError, because the int does not fit a float. The model always returns a text. So `ImageInfo.ReportLines` does not model the report that stops after its first six lines with that error.
- `Format.OneDecimal` gives `.1f` for non-negative values only. That is all `size_format` ever formats under this model.
- A Python `str` may hold lone surrogate code points. A Dafny `char` is a Unicode scalar value and cannot, so such names are not modelled. Field widths count code points in both.
- Record fields that the service may send as `null` (printed by Python as `None`) are modelled as strings, and `mtime` as an integer.
- The actual writes to standard output and the process exit: they are the returned lines and the `Exit` outcome.
