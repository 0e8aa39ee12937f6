# SDG data normalisation, geocoding and conversion, modelled in Dafny

This project models the row-transforming core of the SDG organisation data
scripts. The scripts read CSV files into lists of rows, rewrite the rows, and
write them out again:

- `normalize_sdg_data.py` runs these passes in order:
  - lowercases the column names;
  - numbers the rows with an `id`;
  - turns decimal commas in `latitude`/`longitude` into dots;
  - in mode `all` only:
    - renames `website` to `domain` and derives `homepage` from it;
    - renames `address` to `street_address`;
    - when a cover file is given, joins the rows to it by normalised name or
      domain and adds a `cover_image_id`.
- `address_geocoding.py` asks a geocoding service for the coordinates of every
  row that has neither coordinate but has a street address.
- `convert_sdg_data.py` replaces a non-empty comma-separated `sdgs` string by
  the list of its integers.

A row is a Python dict. It is modelled as its list of fields in insertion
order (`Records.Row`):

- `Get`, `Set` and `Pop` are `row[k]`, `row[k] = v` and `row.pop(k)`.
- `Set` and `Pop` are each proved to keep every other column and to keep names
  distinct.

A file is an `array<Row>`:

- Every pass that rewrites rows in place is a method with `modifies`.
- Each such method is proved equal to a function of the old rows.
- The properties the scripts promise are lemmas about those functions.

Exceptions and errors are modelled as `Err` results:

- A string method called on a value that is not a string raises
  `AttributeError`. Such a value is the `None` that `csv.DictReader` gives a
  short row, or a value an earlier pass wrote.
- `int()` on a bad token raises `ValueError`.
- An unknown mode makes the script exit.

A pass over a whole file (`Records.MapRows`) fails with the error of the
first row that raises.

The geocoding service is a parameter of type `Geocoding.Geocoder`. It is a
function from the position of a call in the run and the query to
`Found(lat, lon)`, `NotFound` or `TimedOut`.

Where the code and its descriptions disagree, the model follows the code:

- A row is sent to the geocoder only when **both** coordinates are missing or
  empty (`address_geocoding.py:36`). A row with just one coordinate is left
  alone.
- No structured failure records are built. A failed lookup is only printed,
  and the row's coordinates are set to `None` (`address_geocoding.py:43-50`).
- The docstring of `rename_homepage_and_create_website`
  (`normalize_sdg_data.py:91-94`) says it renames `homepage` to `domain` and
  creates `website`. The code (`normalize_sdg_data.py:108-117`) moves
  `website` to `domain` and creates `homepage`.
- `add_id_column` decides from the first row's columns alone
  (`normalize_sdg_data.py:59-60`). When that row has no `id`, every row is
  renumbered, including later rows that do have one.

## Model

| member | source | states |
|---|---|---|
| Text.LowerChar | scripts/normalize_sdg_data.py:38 | `lower()` maps each ASCII capital to the letter at the same place in `a`-`z`, and leaves every other character alone |
| Text.Lower | scripts/normalize_sdg_data.py:38 | the lowercased name has the length of the name |
| Text.LowerShape | scripts/normalize_sdg_data.py:38 | lowercasing folds each character; the result has no upper-case letter; a lower-case name is unchanged |
| Text.Strip | scripts/normalize_sdg_data.py:162 | `strip()` never lengthens a string, and a string that neither starts nor ends with whitespace is unchanged |
| Text.StripShape | scripts/normalize_sdg_data.py:162 | `strip()` leaves the slice between the leading and the trailing whitespace; a nonempty result starts and ends with a non-space |
| Text.StartsWith | scripts/normalize_sdg_data.py:114 | `startswith(prefix)` holds exactly when the prefix fits and agrees with the string character by character |
| Text.ReplaceChar | scripts/normalize_sdg_data.py:85 | `replace(',', '.')` keeps the length and swaps exactly the commas, position by position |
| Text.ReplaceCharCounts | scripts/normalize_sdg_data.py:85-87 | after the replacement no comma is left (counted and as membership), and the dots grew by the number of commas |
| Text.Split | scripts/convert_sdg_data.py:43 | `split(',')` gives one piece more than there are commas, and no piece holds a comma |
| Text.JoinSplit | scripts/convert_sdg_data.py:43 | joining the pieces with the separator gives back the string |
| Text.SplitJoin | scripts/convert_sdg_data.py:43 | splitting a join of comma-free pieces gives back the pieces |
| Text.ParseInt | scripts/convert_sdg_data.py:43 | `int()` accepts exactly the decimal literals: digits, or `+`/`-` followed by at least one digit; an unsigned literal has a non-negative value |
| Text.ParseIntSign | scripts/convert_sdg_data.py:43 | a `+` does not change the value of a digit string, and a `-` negates it |
| Text.ParseIntLeadingZero | scripts/convert_sdg_data.py:43 | a leading zero does not change the value, so with `ParseIntToString` every accepted literal has its decimal value |
| Text.ParseIntExamples | scripts/convert_sdg_data.py:43 | `+3`, `-3` and `03` give 3, -3 and 3; `+`, the empty string and `3a` raise |
| Text.ParseIntToString | scripts/convert_sdg_data.py:43 | `int(str(n)) == n` for every integer |
| Records.Get | scripts/normalize_sdg_data.py:84 | `k in row` exactly when the lookup finds a value |
| Records.GetOrNull | scripts/normalize_sdg_data.py:161-163 | `row.get(k)` is `None` for an absent column and the column's value otherwise |
| Records.Set | scripts/normalize_sdg_data.py:63 | `row[k] = v`: the keys gain `k`, `k` reads `v`, every other column is unchanged, names stay distinct, a new key goes last |
| Records.Pop | scripts/normalize_sdg_data.py:111 | `row.pop(k)`: the keys lose `k`, every other column is unchanged, names stay distinct |
| Records.MapRows | scripts/normalize_sdg_data.py:83-88 | a pass over the rows succeeds exactly when every row does, row by row and in order; otherwise it fails with the error of the first row that raises |
| NormalizeFields.LowerKeys | scripts/normalize_sdg_data.py:38 | the dict comprehension yields distinct, lowercase names |
| NormalizeFields.LowerKeysKeys | scripts/normalize_sdg_data.py:38 | the new names are exactly the lowercased old names |
| NormalizeFields.LowerKeysLaterWins | scripts/normalize_sdg_data.py:38 | of names that lowercase alike, the last field's value is kept |
| NormalizeFields.LowerKeysOfLowerRow | scripts/normalize_sdg_data.py:38 | a row with distinct lowercase names is unchanged, order included |
| NormalizeFields.LowercasedRows | scripts/normalize_sdg_data.py:36-41 | one output row per input row, in order |
| NormalizeFields.LowercaseIdempotent | scripts/normalize_sdg_data.py:21-41 | lowercasing twice equals lowercasing once |
| NormalizeFields.LowercaseColumnNames | scripts/normalize_sdg_data.py:21-41 | returns a new list whose rows are the lowercased input rows |
| NormalizeFields.NeedsIds | scripts/normalize_sdg_data.py:59-60 | numbering happens exactly when the file is empty or no field of the first row is named `id` |
| NormalizeFields.WithIds | scripts/normalize_sdg_data.py:59-66 | when the first row has no `id`, row i gets `id` i+1 and keeps every other column; otherwise the rows are unchanged; names stay distinct |
| NormalizeFields.WithIdsIdempotent | scripts/normalize_sdg_data.py:59-66 | numbering twice equals numbering once |
| NormalizeFields.AddIdColumn | scripts/normalize_sdg_data.py:43-66 | rewrites the rows in place to their numbered form |
| NormalizeFields.DotDecimal | scripts/normalize_sdg_data.py:84-87 | succeeds exactly when the column is absent or a string |
| NormalizeFields.LatLonNormalized | scripts/normalize_sdg_data.py:83-87 | fails exactly on a non-string coordinate, latitude first; otherwise keeps the keys and every other column, and leaves the coordinates the same length with every comma a dot |
| NormalizeFields.LatLonIdempotent | scripts/normalize_sdg_data.py:83-87 | normalising twice equals normalising once |
| NormalizeFields.NormalizeLatLon | scripts/normalize_sdg_data.py:68-88 | reports the error of the first raising row; on success the rows are the normalised rows |
| NormalizeFields.Homepage | scripts/normalize_sdg_data.py:114-117 | fails exactly on a truthy non-string; a truthy domain gets `https://` unless it starts with it; an empty domain is copied |
| NormalizeFields.HomepageIdempotent | scripts/normalize_sdg_data.py:114-117 | deriving the homepage from a homepage changes nothing |
| NormalizeFields.HomepageExamples | scripts/normalize_sdg_data.py:114-117 | `example.org` becomes `https://example.org`; `https://example.org` and the empty string are kept |
| NormalizeFields.WebsiteRenamed | scripts/normalize_sdg_data.py:108-117 | without `website` the row is unchanged; with it, `website` is replaced by `domain` (its value) and `homepage` (derived), every other column is kept, and names stay distinct |
| NormalizeFields.WebsiteRenamedIdempotent | scripts/normalize_sdg_data.py:108-117 | a second rename changes nothing |
| NormalizeFields.RenameRow | scripts/normalize_sdg_data.py:109-117 | the loop body on one row raises exactly when the rename of that row does, and otherwise leaves the renamed row |
| NormalizeFields.RenameHomepageAndCreateWebsite | scripts/normalize_sdg_data.py:90-118 | reports the first raising row; on success the rows are the renamed rows |
| NormalizeFields.AddressRenamed | scripts/normalize_sdg_data.py:136-137 | `address` moves to `street_address`, overwriting it; nothing else changes |
| NormalizeFields.AddressRenamedRows | scripts/normalize_sdg_data.py:135-138 | one renamed row per row, in order |
| NormalizeFields.AddressRenamedIdempotent | scripts/normalize_sdg_data.py:135-138 | a second rename changes nothing |
| NormalizeFields.RenameAddressToStreetAddress | scripts/normalize_sdg_data.py:120-138 | rewrites the rows in place to their renamed form |
| CoverImage.CoverLookup | scripts/normalize_sdg_data.py:159-164 | a table is built only when no cover row raises |
| CoverImage.RegisterValue | scripts/normalize_sdg_data.py:161-164 | a falsy value registers nothing; a string registers its stripped, lowercased form with the row's id; any other truthy value raises |
| CoverImage.Register | scripts/normalize_sdg_data.py:160-164 | one cover row adds exactly its normalised name and domain, both with its `cover_image_id`, keeps other entries, and raises exactly on a truthy non-string |
| CoverImage.CoverLookupFails | scripts/normalize_sdg_data.py:159-164 | building the table fails exactly when some cover row raises |
| CoverImage.AllRegisteredMember | scripts/normalize_sdg_data.py:160-164 | a key is registered exactly when some cover row registers it |
| CoverImage.CoverLookupKeys | scripts/normalize_sdg_data.py:159-164 | the table holds exactly the registered keys |
| CoverImage.CoverLookupLastWins | scripts/normalize_sdg_data.py:160-164 | a key maps to the id of the last cover row that registers it |
| CoverImage.CoverLookupStaysFailed | scripts/normalize_sdg_data.py:160-164 | once a cover row raises, later rows do not matter |
| CoverImage.BuildCoverLookup | scripts/normalize_sdg_data.py:158-164 | the lookup loop computes the table, or the error of the first raising row |
| CoverImage.FindCoverId | scripts/normalize_sdg_data.py:168-172 | the match raises exactly on a present non-string `name`, or on a present non-string `domain` after the name missed, naming that column |
| CoverImage.Tagged | scripts/normalize_sdg_data.py:167-176 | tagging raises exactly when the match does; otherwise it adds at most `cover_image_id`, keeps every other column and keeps names distinct |
| CoverImage.NameTakesPriority | scripts/normalize_sdg_data.py:169-170 | a name hit decides whatever the domain says, and a falsy id leaves the row unchanged |
| CoverImage.DomainFallback | scripts/normalize_sdg_data.py:171-172 | the domain decides only when the name is absent or misses |
| CoverImage.Unmatched | scripts/normalize_sdg_data.py:168-176 | a row matching neither way is unchanged |
| CoverImage.AcmeLookup | scripts/normalize_sdg_data.py:160-162 | a cover row named `Acme` with id `7` yields the table `{acme: 7}` |
| CoverImage.AcmeTagged | scripts/normalize_sdg_data.py:169-176 | a row named `ACME ` matches `acme` and gains `cover_image_id` 7 |
| CoverImage.AcmeExample | scripts/normalize_sdg_data.py:140-178 | the whole join on that example tags the row |
| CoverImage.CoverImageIds | scripts/normalize_sdg_data.py:140-178 | the table is built first and its error wins; then the join succeeds exactly when no main row raises, and row i is row i tagged from the table |
| CoverImage.TagRows | scripts/normalize_sdg_data.py:167-176 | the tagging loop reports the first raising row; on success the rows are the tagged rows |
| CoverImage.AddCoverImageId | scripts/normalize_sdg_data.py:140-178 | the table first, then the rows in place, exactly as the function of both files says |
| Geocoding.ApplyOutcome | scripts/address_geocoding.py:40-50 | a location sets both coordinates to its values; no location or a timeout sets both to `None`; no other column changes |
| Geocoding.NeedsGeocoding | scripts/address_geocoding.py:36-37 | a row is sent exactly when `row.get` of both coordinates is falsy and of `street_address` is truthy |
| Geocoding.Queries | scripts/address_geocoding.py:35-39 | at most one call per row, each with timeout 10 and a non-empty address |
| Geocoding.GeocodeAll | scripts/address_geocoding.py:35-52 | the row count is preserved |
| Geocoding.GeocodeRow | scripts/address_geocoding.py:35-50 | row i is geocoded exactly when it has neither coordinate and has an address, with the answer to the call after those for the earlier rows; every other row is unchanged |
| Geocoding.QueriesStep | scripts/address_geocoding.py:35-39 | a row adds its one query exactly when it needs geocoding |
| Geocoding.LocatedRowsUntouched | scripts/address_geocoding.py:36-37 | a row with a coordinate, or without an address, is neither sent nor changed |
| Geocoding.AmphitheatreExample | scripts/address_geocoding.py:39-42 | an address resolved to (37.4, -122.1) gets exactly those coordinates |
| Geocoding.FailedRowsRetried | scripts/address_geocoding.py:43-50 | a failed row still needs geocoding on a second run; a location away from zero does not |
| Geocoding.GeocodeAddresses | scripts/address_geocoding.py:18-52 | the loop makes exactly the calls `Queries` lists, in order, and leaves exactly the rows `GeocodeAll` gives |
| ConvertSdg.ParseTokens | scripts/convert_sdg_data.py:43 | succeeds exactly when every stripped token is an integer literal, giving their values in order; else the `ValueError` names the first bad token |
| ConvertSdg.ParseSdgs | scripts/convert_sdg_data.py:43 | the list has one more element than there are commas, each the value of its stripped piece; an error names a bad piece |
| ConvertSdg.SpacedExample | scripts/convert_sdg_data.py:43 | `"1, 3,7"` becomes `[1, 3, 7]` |
| ConvertSdg.EmptyPieceRaises | scripts/convert_sdg_data.py:43 | `"1,,2"` and `"1,2,"` raise on the empty piece |
| ConvertSdg.RenderParse | scripts/convert_sdg_data.py:43 | parsing the comma-joined renderings of a nonempty list gives the list back |
| ConvertSdg.ConvertRow | scripts/convert_sdg_data.py:42-43 | an absent or empty `sdgs` leaves the row unchanged; a truthy non-string raises `AttributeError`; a string converts exactly when its pieces parse, raising the parse's `ValueError` otherwise; on success only `sdgs` changes, to the parsed list |
| ConvertSdg.ConvertedRowRaisesAgain | scripts/convert_sdg_data.py:42-43 | converting a converted row raises, because the list is not a string |
| ConvertSdg.ConvertAll | scripts/convert_sdg_data.py:41-43 | the loop succeeds exactly when every row converts, row by row in order; otherwise it fails with the first failing row's error |
| ConvertSdg.ConvertSdgs | scripts/convert_sdg_data.py:41-43 | reports the first raising row; on success the rows are rewritten in place to their converted form |
| NormalizePipeline.MinimalPasses | scripts/normalize_sdg_data.py:225-227 | the minimal passes keep the row count |
| NormalizePipeline.FullPasses | scripts/normalize_sdg_data.py:229-235 | the passes of mode `all` keep the row count; a raising website rename ends the run before the cover file is used, and a raising cover table comes next |
| NormalizePipeline.FullPassesRow | scripts/normalize_sdg_data.py:229-235 | row i of mode `all` is the address rename of its website rename, tagged from the cover table only when a cover file is given; without one no row gains `cover_image_id` |
| NormalizePipeline.Pipeline | scripts/normalize_sdg_data.py:214-235 | a mode other than `all`/`minimal` is rejected; the row count is preserved; mode `minimal` runs only the minimal passes; an error there ends either mode; mode `all` then runs the passes of `FullPasses` |
| NormalizePipeline.MinimalRowNames | scripts/normalize_sdg_data.py:225-227 | after the minimal passes, names are lowercase and distinct |
| NormalizePipeline.MinimalRowValues | scripts/normalize_sdg_data.py:225-227 | after the minimal passes, the id is the one assigned and no coordinate holds a comma |
| NormalizePipeline.RenamesOfRow | scripts/normalize_sdg_data.py:230-231 | after both renames there is no `website` and no `address`, and `id` and the coordinates are unchanged |
| NormalizePipeline.RenamesOfRowNames | scripts/normalize_sdg_data.py:230-231 | the renames keep names lowercase and distinct |
| NormalizePipeline.RenamedRow | scripts/normalize_sdg_data.py:230-231 | the same for row i of a whole file |
| NormalizePipeline.TaggedRow | scripts/normalize_sdg_data.py:233-235 | the join keeps every column but `cover_image_id`, adds at most that column, and keeps names lowercase and distinct |
| NormalizePipeline.FullRow | scripts/normalize_sdg_data.py:229-235 | row i after mode `all` keeps `id` and the coordinates, has no `website` or `address`, and keeps names lowercase and distinct |
| NormalizePipeline.PipelineColumnNames | scripts/normalize_sdg_data.py:225-235 | every row written has lowercase, distinct column names |
| NormalizePipeline.PipelineIds | scripts/normalize_sdg_data.py:225-235 | when no name of the first row lowercases to `id`, row i leaves with `id` i+1 |
| NormalizePipeline.PipelineCoordinates | scripts/normalize_sdg_data.py:225-235 | no coordinate written holds a comma |
| NormalizePipeline.AllModeRenames | scripts/normalize_sdg_data.py:229-231 | mode `all` leaves no `website` and no `address` column |
| NormalizePipeline.MinimalIgnoresCover | scripts/normalize_sdg_data.py:229-235 | mode `minimal` does not depend on the cover file |
| NormalizePipeline.NormalizeMain | scripts/normalize_sdg_data.py:205-238 | the main block computes the pipeline's result on a new array and leaves the input array untouched |

## Left out

- Reading and writing files, and everything in `file_utils.py` and `csv_utils.py`. Rows come in and go out as values. This includes CSV dialect sniffing and the I/O error exits.
- The `sys.argv` checks, the default mode `all`, and the commented-out old `__main__` block. `NormalizePipeline.Pipeline` takes the mode and the optional cover rows as arguments.
- `json.dumps` in `convert_csv_to_json`. The model ends at the converted rows.
- All printed diagnostics. This includes the row number printed by the geocoder loop, `csv_data.index(row)+1`, which is the position of the first equal row.
- The real geocoding service and its client object: the network, what its answers mean, and its float coordinates, which are modelled as `real`. Only the three outcomes the loop distinguishes are modelled. Any other geopy exception, which would end the run, is not.
- Full Python semantics of `str.lower`, `str.strip` and `int()` are simplified to ASCII:
  - `lower` folds A-Z only;
  - `strip` removes the ASCII characters for which `isspace` holds;
  - `int` accepts an optional sign and decimal digits, with no underscores and no Unicode digits.
- The `None` column name under which `csv.DictReader` collects surplus fields. Column names are strings here, so `key.lower()` cannot raise.
- The row contents a pass leaves behind when it raises part-way through a file. Python raises and the run ends without writing. The methods report the error, and their contracts say nothing about the rows in that case.
- Sharing of row objects between lists (aliasing). Rows are values, so `lowercase_column_names` returning new dicts and the other passes mutating dicts in place both appear as new row values.
