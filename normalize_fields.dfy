/**
 * The per-row passes of `normalize_sdg_data.py`: lowercasing the column
 * names, numbering the rows, fixing the decimal separator of the
 * coordinates, and the two column renames. Each pass is a method with the
 * loop of the script, proved against a function that says what the pass
 * does to the rows.
 */
module NormalizeFields {

  import opened Wrappers
  import opened Text
  import opened Records

  // ---------------------------------------------------------------------
  // lowercase_column_names
  // ---------------------------------------------------------------------

  /**
   * `{key.lower(): value for key, value in row.items()}`: the fields are
   * entered in order, so of two names that lowercase alike the later value is
   * kept, at the place of the earlier name.
   */
  function LowerKeys(row: Row): (r: Row)
    ensures DistinctKeys(r)
    ensures forall k :: k in Keys(r) ==> IsLowerCase(k)
    decreases |row|
  {
    if row == [] then []
    else
      var last := row[|row| - 1];
      LowerShape(last.key);
      Set(LowerKeys(row[..|row| - 1]), Lower(last.key), last.value)
  }

  /** The column names after lowercasing are exactly the lowercased names. */
  lemma {:induction false} LowerKeysKeys(row: Row, k: string)
    ensures k in Keys(LowerKeys(row)) <==> exists i :: 0 <= i < |row| && Lower(row[i].key) == k
    decreases |row|
  {
    if row != [] {
      var prefix, last := row[..|row| - 1], row[|row| - 1];
      LowerKeysKeys(prefix, k);
      if k in Keys(LowerKeys(row)) && k != Lower(last.key) {
        var i :| 0 <= i < |prefix| && Lower(prefix[i].key) == k;
        assert row[i] == prefix[i];
      }
      if exists i :: 0 <= i < |row| && Lower(row[i].key) == k {
        var i :| 0 <= i < |row| && Lower(row[i].key) == k;
        if i < |prefix| {
          assert prefix[i] == row[i];
        }
      }
    }
  }

  /**
   * Every column takes the value of the LAST field whose name lowercases to
   * it: later keys win.
   */
  lemma {:induction false} LowerKeysLaterWins(row: Row, i: nat)
    requires i < |row|
    requires forall j :: i < j < |row| ==> Lower(row[j].key) != Lower(row[i].key)
    ensures Get(LowerKeys(row), Lower(row[i].key)) == Some(row[i].value)
    decreases |row|
  {
    if i < |row| - 1 {
      var prefix := row[..|row| - 1];
      LowerKeysLaterWins(prefix, i);
    }
  }

  /** A row whose names are already lowercase and distinct is left as it is, order included. */
  lemma {:induction false} LowerKeysOfLowerRow(row: Row)
    requires DistinctKeys(row)
    requires forall k :: k in Keys(row) ==> IsLowerCase(k)
    ensures LowerKeys(row) == row
    decreases |row|
  {
    if row != [] {
      var prefix, last := row[..|row| - 1], row[|row| - 1];
      assert row == prefix + [last];
      DistinctAppend(prefix, last);
      KeysAppend(prefix, last);
      LowerKeysOfLowerRow(prefix);
      LowerShape(last.key);
    }
  }

  function LowercasedRows(rows: seq<Row>): (r: seq<Row>)
    ensures |r| == |rows|
    ensures forall i :: 0 <= i < |rows| ==> r[i] == LowerKeys(rows[i])
  {
    seq(|rows|, i requires 0 <= i < |rows| => LowerKeys(rows[i]))
  }

  /** Lowercasing the column names twice is the same as once. */
  lemma LowercaseIdempotent(rows: seq<Row>)
    ensures LowercasedRows(LowercasedRows(rows)) == LowercasedRows(rows)
  {
    forall i | 0 <= i < |rows|
      ensures LowerKeys(LowerKeys(rows[i])) == LowerKeys(rows[i])
    {
      LowerKeysOfLowerRow(LowerKeys(rows[i]));
    }
  }

  /** lowercase_column_names: a new list of new rows; the input is not touched. */
  method LowercaseColumnNames(data: array<Row>) returns (updated: array<Row>)
    ensures fresh(updated)
    ensures updated[..] == LowercasedRows(data[..])
  {
    updated := new Row[data.Length];
    for i := 0 to data.Length
      invariant forall j :: 0 <= j < i ==> updated[j] == LowerKeys(data[j])
    {
      updated[i] := LowerKeys(data[i]);
    }
  }

  // ---------------------------------------------------------------------
  // add_id_column
  // ---------------------------------------------------------------------

  /** Whether add_id_column numbers the rows: only the first row's names are consulted. */
  predicate NeedsIds(rows: seq<Row>)
    ensures NeedsIds(rows) <==> rows == [] || forall j :: 0 <= j < |rows[0]| ==> rows[0][j].key != "id"
  {
    rows == [] || (KeysIndex(rows[0], "id"); "id" !in Keys(rows[0]))
  }

  /**
   * Row i (counting from 1) gets the integer id i when the first row has no
   * `id` column; otherwise the rows are returned as they are.
   */
  function WithIds(rows: seq<Row>): (r: seq<Row>)
    ensures |r| == |rows|
    ensures NeedsIds(rows) ==> forall i :: 0 <= i < |rows| ==>
              && Get(r[i], "id") == Some(Int(i + 1))
              && Keys(r[i]) == Keys(rows[i]) + {"id"}
              && (forall k :: k != "id" ==> Get(r[i], k) == Get(rows[i], k))
    ensures !NeedsIds(rows) ==> r == rows
    ensures forall i :: 0 <= i < |rows| && DistinctKeys(rows[i]) ==> DistinctKeys(r[i])
  {
    if NeedsIds(rows) then seq(|rows|, i requires 0 <= i < |rows| => Set(rows[i], "id", Int(i + 1)))
    else rows
  }

  /** Numbering is not repeated: a second add_id_column changes nothing. */
  lemma WithIdsIdempotent(rows: seq<Row>)
    ensures WithIds(WithIds(rows)) == WithIds(rows)
  {
    if rows != [] {
      assert "id" in Keys(WithIds(rows)[0]);
    }
  }

  /** add_id_column. */
  method AddIdColumn(data: array<Row>)
    modifies data
    ensures data[..] == WithIds(old(data[..]))
  {
    ghost var rows := data[..];
    if data.Length == 0 || "id" !in Keys(data[0]) {
      for idx := 0 to data.Length
        invariant forall j :: 0 <= j < idx ==> data[j] == Set(rows[j], "id", Int(j + 1))
        invariant forall j :: idx <= j < data.Length ==> data[j] == rows[j]
      {
        data[idx] := Set(data[idx], "id", Int(idx + 1));
      }
      NumberedRows(rows, data[..]);
    }
  }

  /** The rows the numbering loop leaves are the numbered rows. */
  lemma NumberedRows(rows: seq<Row>, out: seq<Row>)
    requires NeedsIds(rows) && |out| == |rows|
    requires forall j :: 0 <= j < |rows| ==> out[j] == Set(rows[j], "id", Int(j + 1))
    ensures out == WithIds(rows)
  {
  }

  // ---------------------------------------------------------------------
  // normalize_lat_lon
  // ---------------------------------------------------------------------

  const COORDINATES: set<string> := {"latitude", "longitude"}

  /** A column whose value `.replace` can be called on: absent, or a string. */
  predicate AbsentOrString(row: Row, k: string) {
    Get(row, k).None? || Get(row, k).value.Str?
  }

  /** `row[k] = row[k].replace(',', '.')` when `k in row`. */
  function DotDecimal(row: Row, k: string): (r: Result<Row>)
    ensures r.Ok? <==> AbsentOrString(row, k)
  {
    match Get(row, k)
    case None => Ok(row)
    case Some(v) =>
      if v.Str? then Ok(Set(row, k, Str(ReplaceChar(v.s, ',', '.'))))
      else Err(AttributeError(k))
  }

  /**
   * normalize_lat_lon on one row: in `latitude` and `longitude` every comma
   * becomes a dot and nothing else changes; a value that is not a string
   * raises, latitude first.
   */
  function LatLonNormalized(row: Row): (r: Result<Row>)
    ensures r.Ok? <==> AbsentOrString(row, "latitude") && AbsentOrString(row, "longitude")
    ensures r.Err? ==> r.error == AttributeError(if AbsentOrString(row, "latitude") then "longitude" else "latitude")
    ensures r.Ok? ==> Keys(r.value) == Keys(row)
    ensures r.Ok? ==> forall k :: k !in COORDINATES ==> Get(r.value, k) == Get(row, k)
    ensures r.Ok? ==> forall k :: k in COORDINATES && k in Keys(row) ==>
              && Get(r.value, k).value.Str?
              && Get(r.value, k).value.s == ReplaceChar(Get(row, k).value.s, ',', '.')
              && |Get(r.value, k).value.s| == |Get(row, k).value.s|
              && ',' !in Get(r.value, k).value.s
  {
    var withLatitude :- DotDecimal(row, "latitude");
    DotDecimal(withLatitude, "longitude")
  }

  /** Fixing the separator twice is the same as once. */
  lemma LatLonIdempotent(row: Row)
    requires LatLonNormalized(row).Ok?
    ensures LatLonNormalized(LatLonNormalized(row).value) == LatLonNormalized(row)
  {
    var once := LatLonNormalized(row).value;
    forall k | k in COORDINATES && k in Keys(once)
      ensures ReplaceChar(Get(once, k).value.s, ',', '.') == Get(once, k).value.s
    {
    }
  }

  /** normalize_lat_lon. */
  method NormalizeLatLon(data: array<Row>) returns (outcome: Outcome)
    modifies data
    ensures outcome == StatusOf(MapRows(LatLonNormalized, old(data[..])))
    ensures outcome.Pass? ==> data[..] == MapRows(LatLonNormalized, old(data[..])).value
  {
    for i := 0 to data.Length
      invariant forall j :: 0 <= j < i ==> LatLonNormalized(old(data[j])) == Ok(data[j])
      invariant forall j :: i <= j < data.Length ==> data[j] == old(data[j])
    {
      var latitude := Get(data[i], "latitude");
      if latitude.Some? {
        if !latitude.value.Str? {
          FirstFailure(LatLonNormalized, old(data[..]), i);
          return Fail(AttributeError("latitude"));
        }
        data[i] := Set(data[i], "latitude", Str(ReplaceChar(latitude.value.s, ',', '.')));
      }
      var longitude := Get(data[i], "longitude");
      if longitude.Some? {
        if !longitude.value.Str? {
          FirstFailure(LatLonNormalized, old(data[..]), i);
          return Fail(AttributeError("longitude"));
        }
        data[i] := Set(data[i], "longitude", Str(ReplaceChar(longitude.value.s, ',', '.')));
      }
    }
    return Pass;
  }

  // ---------------------------------------------------------------------
  // rename_homepage_and_create_website
  // ---------------------------------------------------------------------

  const HTTPS := "https://"

  /**
   * The homepage derived from a domain value: a non-empty domain without the
   * scheme gets `https://` in front, any other value is copied; calling
   * `startswith` on a non-empty value that is not a string raises.
   */
  function Homepage(domain: Value): (r: Result<Value>)
    ensures r.Err? <==> Truthy(domain) && !domain.Str?
    ensures r.Ok? && Truthy(domain) ==> r.value.Str? && StartsWith(r.value.s, HTTPS)
    ensures r.Ok? && Truthy(domain) ==> r.value.s == (if StartsWith(domain.s, HTTPS) then domain.s else HTTPS + domain.s)
    ensures r.Ok? && !Truthy(domain) ==> r.value == domain
  {
    if Truthy(domain) then
      if domain.Str? then
        if !StartsWith(domain.s, HTTPS) then Ok(Str(HTTPS + domain.s)) else Ok(domain)
      else Err(AttributeError("domain"))
    else Ok(domain)
  }

  /** Deriving the homepage from a homepage changes nothing. */
  lemma HomepageIdempotent(domain: Value)
    requires Homepage(domain).Ok?
    ensures Homepage(Homepage(domain).value) == Homepage(domain)
  {
  }

  /** Examples: a plain domain, a domain with the scheme, an empty domain. */
  lemma HomepageExamples()
    ensures Homepage(Str("example.org")) == Ok(Str("https://example.org"))
    ensures Homepage(Str("https://example.org")) == Ok(Str("https://example.org"))
    ensures Homepage(Str("")) == Ok(Str(""))
  {
    assert HTTPS + "example.org" == "https://example.org";
    assert !StartsWith("example.org", HTTPS) by {
      assert "example.org"[..|HTTPS|] != HTTPS by {
        assert "example.org"[0] != HTTPS[0];
      }
    }
    assert StartsWith("https://example.org", HTTPS) by {
      assert "https://example.org"[..|HTTPS|] == HTTPS;
    }
  }

  /**
   * rename_homepage_and_create_website on one row: `website` moves to
   * `domain` and `homepage` is derived from it; a row without `website` is
   * left as it is.
   */
  function WebsiteRenamed(row: Row): (r: Result<Row>)
    ensures "website" !in Keys(row) ==> r == Ok(row)
    ensures "website" in Keys(row) ==> (r.Err? <==> Homepage(Get(row, "website").value).Err?)
    ensures "website" in Keys(row) && r.Ok? ==>
              && Keys(r.value) == Keys(row) - {"website"} + {"domain", "homepage"}
              && Get(r.value, "domain") == Get(row, "website")
              && Get(r.value, "homepage") == Some(Homepage(Get(row, "website").value).value)
              && (forall k :: k !in {"website", "domain", "homepage"} ==> Get(r.value, k) == Get(row, k))
    ensures r.Ok? ==> "website" !in Keys(r.value)
    ensures DistinctKeys(row) && r.Ok? ==> DistinctKeys(r.value)
  {
    match Get(row, "website")
    case None => Ok(row)
    case Some(website) =>
      var withDomain := Set(Pop(row, "website"), "domain", website);
      var homepage :- Homepage(website);
      Ok(Set(withDomain, "homepage", homepage))
  }

  /** A second rename finds no `website` and changes nothing. */
  lemma WebsiteRenamedIdempotent(row: Row)
    requires WebsiteRenamed(row).Ok?
    ensures WebsiteRenamed(WebsiteRenamed(row).value) == WebsiteRenamed(row)
  {
  }

  /**
   * The loop body on one row: `website` moves to `domain`, then `homepage` is
   * derived from it. On a raise, the row is returned as far as it got.
   */
  method RenameRow(row: Row) returns (outcome: Outcome, r: Row)
    ensures outcome == StatusOf(WebsiteRenamed(row))
    ensures outcome.Pass? ==> WebsiteRenamed(row) == Ok(r)
  {
    var website := Get(row, "website");
    if website.None? {
      return Pass, row;
    }
    r := Set(Pop(row, "website"), "domain", website.value);
    var domain := website.value;
    if Truthy(domain) && !domain.Str? {
      return Fail(AttributeError("domain")), r;
    }
    if Truthy(domain) && !StartsWith(domain.s, HTTPS) {
      r := Set(r, "homepage", Str(HTTPS + domain.s));
    } else {
      r := Set(r, "homepage", domain);
    }
    return Pass, r;
  }

  /** rename_homepage_and_create_website. */
  method RenameHomepageAndCreateWebsite(data: array<Row>) returns (outcome: Outcome)
    modifies data
    ensures outcome == StatusOf(MapRows(WebsiteRenamed, old(data[..])))
    ensures outcome.Pass? ==> data[..] == MapRows(WebsiteRenamed, old(data[..])).value
  {
    for i := 0 to data.Length
      invariant forall j :: 0 <= j < i ==> WebsiteRenamed(old(data[j])) == Ok(data[j])
      invariant forall j :: i <= j < data.Length ==> data[j] == old(data[j])
    {
      var rowOutcome, row := RenameRow(data[i]);
      data[i] := row;
      if rowOutcome.Fail? {
        FirstFailure(WebsiteRenamed, old(data[..]), i);
        return rowOutcome;
      }
    }
    return Pass;
  }

  // ---------------------------------------------------------------------
  // rename_address_to_street_address
  // ---------------------------------------------------------------------

  /**
   * `row['street_address'] = row.pop('address')` when `address` is present:
   * the value moves, overwriting any street_address, and nothing else changes.
   */
  function AddressRenamed(row: Row): (r: Row)
    ensures "address" !in Keys(row) ==> r == row
    ensures "address" in Keys(row) ==>
              && Keys(r) == Keys(row) - {"address"} + {"street_address"}
              && Get(r, "street_address") == Get(row, "address")
              && (forall k :: k != "address" && k != "street_address" ==> Get(r, k) == Get(row, k))
    ensures "address" !in Keys(r)
    ensures DistinctKeys(row) ==> DistinctKeys(r)
  {
    match Get(row, "address")
    case None => row
    case Some(address) => Set(Pop(row, "address"), "street_address", address)
  }

  function AddressRenamedRows(rows: seq<Row>): (r: seq<Row>)
    ensures |r| == |rows|
    ensures forall i :: 0 <= i < |rows| ==> r[i] == AddressRenamed(rows[i])
  {
    seq(|rows|, i requires 0 <= i < |rows| => AddressRenamed(rows[i]))
  }

  /** A second rename finds no `address` and changes nothing. */
  lemma AddressRenamedIdempotent(rows: seq<Row>)
    ensures AddressRenamedRows(AddressRenamedRows(rows)) == AddressRenamedRows(rows)
  {
  }

  /** rename_address_to_street_address. */
  method RenameAddressToStreetAddress(data: array<Row>)
    modifies data
    ensures data[..] == AddressRenamedRows(old(data[..]))
  {
    for i := 0 to data.Length
      invariant forall j :: 0 <= j < i ==> data[j] == AddressRenamed(old(data[j]))
      invariant forall j :: i <= j < data.Length ==> data[j] == old(data[j])
    {
      var address := Get(data[i], "address");
      if address.Some? {
        data[i] := Set(Pop(data[i], "address"), "street_address", address.value);
      }
    }
  }
}
