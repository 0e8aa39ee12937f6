/**
 * The `__main__` block of `normalize_sdg_data.py`: the mode is checked, the
 * minimal passes always run, and in mode `all` the renames and, when a cover
 * file is given, the cover-image join follow. Reading and writing the CSV
 * files is left to the caller: the rows come in and go out as values.
 */
module NormalizePipeline {

  import opened Wrappers
  import opened Text
  import opened Records
  import opened NormalizeFields
  import opened CoverImage

  /** `mode in ["all", "minimal"]`. */
  predicate ValidMode(mode: string) {
    mode == "all" || mode == "minimal"
  }

  /** The passes mode `minimal` runs: lowercase_column_names, add_id_column, normalize_lat_lon. */
  function MinimalPasses(rows: seq<Row>): (r: Result<seq<Row>>)
    ensures r.Ok? ==> |r.value| == |rows|
  {
    MapRows(LatLonNormalized, WithIds(LowercasedRows(rows)))
  }

  /** The passes mode `all` adds: the two renames, then the cover-image join when a cover file is given. */
  function FullPasses(minimal: seq<Row>, cover: Option<seq<Row>>): (r: Result<seq<Row>>)
    ensures r.Ok? ==> |r.value| == |minimal|
    ensures MapRows(WebsiteRenamed, minimal).Err? ==> r == Err(MapRows(WebsiteRenamed, minimal).error)
    ensures MapRows(WebsiteRenamed, minimal).Ok? && cover.Some? && CoverLookup(cover.value).Err?
            ==> r == Err(CoverLookup(cover.value).error)
  {
    var renamed :- MapRows(WebsiteRenamed, minimal);
    var addressed := AddressRenamedRows(renamed);
    match cover
    case None => Ok(addressed)
    case Some(c) => CoverImageIds(addressed, c)
  }

  /**
   * One run of the script on the rows of the input file, in `mode`, with the
   * rows of the cover file when one is given.
   */
  function Pipeline(rows: seq<Row>, mode: string, cover: Option<seq<Row>>): (r: Result<seq<Row>>)
    ensures !ValidMode(mode) ==> r == Err(InvalidMode(mode))
    ensures r.Ok? ==> |r.value| == |rows|
    ensures mode == "minimal" ==> r == MinimalPasses(rows)
    ensures ValidMode(mode) && MinimalPasses(rows).Err? ==> r == Err(MinimalPasses(rows).error)
    ensures mode == "all" && MinimalPasses(rows).Ok? ==> r == FullPasses(MinimalPasses(rows).value, cover)
  {
    if !ValidMode(mode) then Err(InvalidMode(mode))
    else
      var minimal :- MinimalPasses(rows);
      if mode == "minimal" then Ok(minimal) else FullPasses(minimal, cover)
  }

  /**
   * Row `i` after the passes of mode `all`: the address rename of its website
   * rename, then, only when a cover file is given, tagged from the table of
   * that file. Without a cover file no row gains `cover_image_id`.
   */
  lemma FullPassesRow(minimal: seq<Row>, cover: Option<seq<Row>>, i: nat)
    requires FullPasses(minimal, cover).Ok? && i < |minimal|
    ensures WebsiteRenamed(minimal[i]).Ok?
    ensures var out := FullPasses(minimal, cover).value[i];
            var addressed := AddressRenamed(WebsiteRenamed(minimal[i]).value);
            && (cover.None? ==> out == addressed)
            && (cover.None? && "cover_image_id" !in Keys(minimal[i]) ==> "cover_image_id" !in Keys(out))
            && (cover.Some? ==> CoverLookup(cover.value).Ok? && Tagged(CoverLookup(cover.value).value, addressed) == Ok(out))
  {
    var renamed := MapRows(WebsiteRenamed, minimal).value;
    assert WebsiteRenamed(minimal[i]) == Ok(renamed[i]);
    var addressed := AddressRenamedRows(renamed);
    assert addressed[i] == AddressRenamed(renamed[i]);
    if cover.Some? {
      var lookup := CoverLookup(cover.value).value;
      var tagged := MapRows((row: Row) => Tagged(lookup, row), addressed).value;
      assert Tagged(lookup, addressed[i]) == Ok(tagged[i]);
    }
  }

  /** Mode `minimal` does not read the cover file. */
  lemma MinimalIgnoresCover(rows: seq<Row>, cover: Option<seq<Row>>)
    ensures Pipeline(rows, "minimal", cover) == Pipeline(rows, "minimal", None)
  {
  }

  /** Column names are lowercase and occur once. */
  predicate LowerDistinct(row: Row) {
    DistinctKeys(row) && forall k :: k in Keys(row) ==> IsLowerCase(k)
  }

  /** The columns the passes of mode `all` never write. */
  const UNTOUCHED: set<string> := {"id", "latitude", "longitude"}

  /** A row that only gains lowercase names stays LowerDistinct, provided its names stay distinct. */
  lemma LowerDistinctGrows(row: Row, r: Row, added: set<string>)
    requires LowerDistinct(row) && DistinctKeys(r) && Keys(r) <= Keys(row) + added
    requires forall k :: k in added ==> IsLowerCase(k)
    ensures LowerDistinct(r)
  {
  }

  /** Row `i` after the minimal passes has lowercase, distinct names. */
  lemma MinimalRowNames(rows: seq<Row>, i: nat)
    requires MinimalPasses(rows).Ok? && i < |rows|
    ensures LowerDistinct(MinimalPasses(rows).value[i])
  {
    var lowered := LowercasedRows(rows);
    var numbered := WithIds(lowered);
    var out := MinimalPasses(rows).value;
    assert LatLonNormalized(numbered[i]) == Ok(out[i]);
    assert Keys(numbered[i]) <= Keys(lowered[i]) + {"id"};
    assert IsLowerCase("id");
    LowerDistinctGrows(lowered[i], numbered[i], {"id"});
    LowerDistinctGrows(numbered[i], out[i], {});
  }

  /**
   * Row `i` after the minimal passes keeps the id add_id_column gave it, and
   * its coordinates hold no comma.
   */
  lemma MinimalRowValues(rows: seq<Row>, i: nat)
    requires MinimalPasses(rows).Ok? && i < |rows|
    ensures Get(MinimalPasses(rows).value[i], "id") == Get(WithIds(LowercasedRows(rows))[i], "id")
    ensures forall k :: k in COORDINATES && Get(MinimalPasses(rows).value[i], k).Some? ==>
              Get(MinimalPasses(rows).value[i], k).value.Str? && ',' !in Get(MinimalPasses(rows).value[i], k).value.s
  {
    var numbered := WithIds(LowercasedRows(rows));
    assert LatLonNormalized(numbered[i]) == Ok(MinimalPasses(rows).value[i]);
  }

  /** One row through both renames: no `website`, no `address`, the untouched columns as they were. */
  lemma RenamesOfRow(row: Row, renamed: Row)
    requires WebsiteRenamed(row) == Ok(renamed)
    ensures var out := AddressRenamed(renamed);
            && (forall k :: k in UNTOUCHED ==> Get(out, k) == Get(row, k))
            && "website" !in Keys(out) && "address" !in Keys(out)
  {
  }

  /** The renames add only lowercase names and keep names distinct. */
  lemma RenamesOfRowNames(row: Row, renamed: Row)
    requires WebsiteRenamed(row) == Ok(renamed) && LowerDistinct(row)
    ensures LowerDistinct(AddressRenamed(renamed))
  {
    WebsiteRenamedNames(row, renamed);
    AddressRenamedNames(renamed);
  }

  /** The website rename adds only `domain` and `homepage`. */
  lemma WebsiteRenamedNames(row: Row, renamed: Row)
    requires WebsiteRenamed(row) == Ok(renamed) && LowerDistinct(row)
    ensures LowerDistinct(renamed)
  {
    assert IsLowerCase("domain") && IsLowerCase("homepage");
    assert Keys(renamed) <= Keys(row) + {"domain", "homepage"};
    LowerDistinctGrows(row, renamed, {"domain", "homepage"});
  }

  /** The address rename adds only `street_address`. */
  lemma AddressRenamedNames(row: Row)
    requires LowerDistinct(row)
    ensures LowerDistinct(AddressRenamed(row))
  {
    assert IsLowerCase("street_address");
    assert Keys(AddressRenamed(row)) <= Keys(row) + {"street_address"};
    LowerDistinctGrows(row, AddressRenamed(row), {"street_address"});
  }

  /** Row `i` after the two renames over the whole file. */
  lemma RenamedRow(minimal: seq<Row>, i: nat)
    requires MapRows(WebsiteRenamed, minimal).Ok? && i < |minimal|
    ensures var row := AddressRenamedRows(MapRows(WebsiteRenamed, minimal).value)[i];
            && (forall k :: k in UNTOUCHED ==> Get(row, k) == Get(minimal[i], k))
            && "website" !in Keys(row) && "address" !in Keys(row)
            && (LowerDistinct(minimal[i]) ==> LowerDistinct(row))
  {
    var renamed := MapRows(WebsiteRenamed, minimal).value;
    assert WebsiteRenamed(minimal[i]) == Ok(renamed[i]);
    RenamesOfRow(minimal[i], renamed[i]);
    if LowerDistinct(minimal[i]) {
      RenamesOfRowNames(minimal[i], renamed[i]);
    }
  }

  /** Row `i` after the cover-image join: at most `cover_image_id` is added. */
  lemma TaggedRow(rows: seq<Row>, cover: seq<Row>, i: nat)
    requires CoverImageIds(rows, cover).Ok? && i < |rows|
    ensures |CoverImageIds(rows, cover).value| == |rows|
    ensures var row := CoverImageIds(rows, cover).value[i];
            && (LowerDistinct(rows[i]) ==> LowerDistinct(row))
            && (forall k :: k != "cover_image_id" ==> Get(row, k) == Get(rows[i], k))
            && Keys(row) <= Keys(rows[i]) + {"cover_image_id"}
  {
    var lookup := CoverLookup(cover).value;
    var tagged := MapRows((row: Row) => Tagged(lookup, row), rows).value;
    assert Tagged(lookup, rows[i]) == Ok(tagged[i]);
    if LowerDistinct(rows[i]) {
      TaggedRowNames(lookup, rows[i], tagged[i]);
    }
  }

  /** Tagging adds at most `cover_image_id`, a lowercase name, and keeps names distinct. */
  lemma TaggedRowNames(lookup: Lookup, row: Row, tagged: Row)
    requires Tagged(lookup, row) == Ok(tagged) && LowerDistinct(row)
    ensures LowerDistinct(tagged)
  {
    assert IsLowerCase("cover_image_id");
    LowerDistinctGrows(row, tagged, {"cover_image_id"});
  }

  /** Row `i` after the passes of mode `all`. */
  lemma FullRow(minimal: seq<Row>, cover: Option<seq<Row>>, i: nat)
    requires FullPasses(minimal, cover).Ok? && i < |minimal|
    ensures var row := FullPasses(minimal, cover).value[i];
            && (LowerDistinct(minimal[i]) ==> LowerDistinct(row))
            && (forall k :: k in UNTOUCHED ==> Get(row, k) == Get(minimal[i], k))
            && "website" !in Keys(row) && "address" !in Keys(row)
  {
    RenamedRow(minimal, i);
    if cover.Some? {
      TaggedRow(AddressRenamedRows(MapRows(WebsiteRenamed, minimal).value), cover.value, i);
    }
  }

  /** Every row the script writes has lowercase, distinct column names, in either mode. */
  lemma PipelineColumnNames(rows: seq<Row>, mode: string, cover: Option<seq<Row>>, i: nat)
    requires Pipeline(rows, mode, cover).Ok? && i < |rows|
    ensures LowerDistinct(Pipeline(rows, mode, cover).value[i])
  {
    MinimalRowNames(rows, i);
    if mode == "all" {
      FullRow(MinimalPasses(rows).value, cover, i);
    }
  }

  /**
   * When no name of the first input row lowercases to `id`, the rows leave
   * the script numbered 1, 2, ... in file order, in either mode.
   */
  lemma PipelineIds(rows: seq<Row>, mode: string, cover: Option<seq<Row>>, i: nat)
    requires Pipeline(rows, mode, cover).Ok? && i < |rows|
    requires forall j :: 0 <= j < |rows[0]| ==> Lower(rows[0][j].key) != "id"
    ensures Get(Pipeline(rows, mode, cover).value[i], "id") == Some(Int(i + 1))
  {
    LowerKeysKeys(rows[0], "id");
    assert NeedsIds(LowercasedRows(rows));
    MinimalRowValues(rows, i);
    if mode == "all" {
      FullRow(MinimalPasses(rows).value, cover, i);
    }
  }

  /** No coordinate the script writes holds a comma, in either mode. */
  lemma PipelineCoordinates(rows: seq<Row>, mode: string, cover: Option<seq<Row>>, i: nat, k: string)
    requires Pipeline(rows, mode, cover).Ok? && i < |rows|
    requires k in COORDINATES && Get(Pipeline(rows, mode, cover).value[i], k).Some?
    ensures Get(Pipeline(rows, mode, cover).value[i], k).value.Str?
    ensures ',' !in Get(Pipeline(rows, mode, cover).value[i], k).value.s
  {
    MinimalRowValues(rows, i);
    if mode == "all" {
      FullRow(MinimalPasses(rows).value, cover, i);
    }
  }

  /** Mode `all` leaves no `website` and no `address` column. */
  lemma AllModeRenames(rows: seq<Row>, cover: Option<seq<Row>>, i: nat)
    requires Pipeline(rows, "all", cover).Ok? && i < |rows|
    ensures "website" !in Keys(Pipeline(rows, "all", cover).value[i])
    ensures "address" !in Keys(Pipeline(rows, "all", cover).value[i])
  {
    FullRow(MinimalPasses(rows).value, cover, i);
  }

  /** The `__main__` block, from the parsed arguments to the rows it writes. */
  method NormalizeMain(input: array<Row>, mode: string, cover: Option<seq<Row>>) returns (r: Result<array<Row>>)
    ensures StatusOf(r) == StatusOf(Pipeline(input[..], mode, cover))
    ensures r.Ok? ==> fresh(r.value) && r.value[..] == Pipeline(input[..], mode, cover).value
  {
    if mode != "all" && mode != "minimal" {
      return Err(InvalidMode(mode));
    }
    var data := LowercaseColumnNames(input);
    AddIdColumn(data);
    var outcome := NormalizeLatLon(data);
    if outcome.Fail? {
      return Err(outcome.error);
    }
    if mode == "all" {
      outcome := RenameHomepageAndCreateWebsite(data);
      if outcome.Fail? {
        return Err(outcome.error);
      }
      RenameAddressToStreetAddress(data);
      if cover.Some? {
        outcome := AddCoverImageId(data, cover.value);
        if outcome.Fail? {
          return Err(outcome.error);
        }
      }
    }
    return Ok(data);
  }
}
