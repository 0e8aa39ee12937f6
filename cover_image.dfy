/**
 * `add_cover_image_id` of `normalize_sdg_data.py`: a lookup table is built
 * from the rows of a second CSV file, keyed by the stripped, lowercased
 * `name` and `domain` of each of its rows, and the rows of the main file
 * that match it by name (first) or domain (second) get a `cover_image_id`.
 */
module CoverImage {

  import opened Wrappers
  import opened Text
  import opened Records

  type Lookup = map<string, Value>

  /** `value.strip().lower()`. */
  function NormalizedKey(s: string): string {
    Lower(Strip(s))
  }

  /** The key a truthy string value registers: `{value.strip().lower()}`; none for a falsy value. */
  function KeyOf(v: Value): set<string> {
    if Truthy(v) && v.Str? then {NormalizedKey(v.s)} else {}
  }

  /** The keys a cover row registers: its normalised name and domain. */
  function RegisteredKeys(row: Row): set<string> {
    KeyOf(GetOrNull(row, "name")) + KeyOf(GetOrNull(row, "domain"))
  }

  /** Whether a truthy `name` or `domain` of the row is not a string, which makes `.strip()` raise. */
  predicate RaisesOnRegister(row: Row) {
    var name := GetOrNull(row, "name");
    var domain := GetOrNull(row, "domain");
    (Truthy(name) && !name.Str?) || (Truthy(domain) && !domain.Str?)
  }

  /**
   * `if row.get(column): cover_lookup[row[column].strip().lower()] = id`: the
   * key maps to the id and every other entry is kept.
   */
  function RegisterValue(lookup: Lookup, column: string, v: Value, id: Value): (r: Result<Lookup>)
    ensures r.Err? <==> Truthy(v) && !v.Str?
    ensures r.Ok? ==> r.value.Keys == lookup.Keys + KeyOf(v)
    ensures r.Ok? ==> forall k :: k in KeyOf(v) ==> r.value[k] == id
    ensures r.Ok? ==> forall k :: k in lookup && k !in KeyOf(v) ==> r.value[k] == lookup[k]
  {
    if !Truthy(v) then Ok(lookup)
    else if v.Str? then Ok(lookup[NormalizedKey(v.s) := id])
    else Err(AttributeError(column))
  }

  /**
   * Registering one cover row: `name` and then `domain`, both mapping to the
   * row's `cover_image_id` (None when the row has none). Both keys take the
   * same id, so their order within one row is not observable.
   */
  function Register(lookup: Lookup, row: Row): (r: Result<Lookup>)
    ensures r.Err? <==> RaisesOnRegister(row)
    ensures r.Ok? ==> r.value.Keys == lookup.Keys + RegisteredKeys(row)
    ensures r.Ok? ==> forall k :: k in RegisteredKeys(row) ==> r.value[k] == GetOrNull(row, "cover_image_id")
    ensures r.Ok? ==> forall k :: k in lookup && k !in RegisteredKeys(row) ==> r.value[k] == lookup[k]
  {
    var id := GetOrNull(row, "cover_image_id");
    var withName :- RegisterValue(lookup, "name", GetOrNull(row, "name"), id);
    RegisterValue(withName, "domain", GetOrNull(row, "domain"), id)
  }

  /**
   * The cover lookup table after all the cover rows, registered in file
   * order; a table is built only when no cover row raises.
   */
  function CoverLookup(cover: seq<Row>): (r: Result<Lookup>)
    ensures r.Ok? ==> forall i :: 0 <= i < |cover| ==> !RaisesOnRegister(cover[i])
    decreases |cover|
  {
    if cover == [] then Ok(map[])
    else
      var prefix := cover[..|cover| - 1];
      var before :- CoverLookup(prefix);
      assert forall i :: 0 <= i < |prefix| ==> prefix[i] == cover[i];
      Register(before, cover[|cover| - 1])
  }

  /** Building the table fails exactly when some cover row raises. */
  lemma {:induction false} CoverLookupFails(cover: seq<Row>)
    ensures CoverLookup(cover).Err? <==> exists i :: 0 <= i < |cover| && RaisesOnRegister(cover[i])
    decreases |cover|
  {
    if cover != [] {
      var prefix := cover[..|cover| - 1];
      CoverLookupFails(prefix);
      assert forall i :: 0 <= i < |prefix| ==> prefix[i] == cover[i];
      if CoverLookup(prefix).Ok? {
        assert Register(CoverLookup(prefix).value, cover[|cover| - 1]).Err?
               <==> RaisesOnRegister(cover[|cover| - 1]);
      }
    }
  }

  /** Every key the cover rows register, in file order. */
  function AllRegistered(cover: seq<Row>): set<string>
    decreases |cover|
  {
    if cover == [] then {} else AllRegistered(cover[..|cover| - 1]) + RegisteredKeys(cover[|cover| - 1])
  }

  /** A key is registered by the file when some cover row registers it. */
  lemma {:induction false} AllRegisteredMember(cover: seq<Row>, k: string)
    ensures k in AllRegistered(cover) <==> exists i :: 0 <= i < |cover| && k in RegisteredKeys(cover[i])
    decreases |cover|
  {
    if cover != [] {
      var prefix := cover[..|cover| - 1];
      AllRegisteredMember(prefix, k);
      assert forall i :: 0 <= i < |prefix| ==> prefix[i] == cover[i];
    }
  }

  /** The table holds exactly the keys the cover rows register. */
  lemma {:induction false} CoverLookupKeys(cover: seq<Row>)
    requires CoverLookup(cover).Ok?
    ensures CoverLookup(cover).value.Keys == AllRegistered(cover)
    decreases |cover|
  {
    if cover != [] {
      CoverLookupKeys(cover[..|cover| - 1]);
    }
  }

  /**
   * Last write wins: a key maps to the `cover_image_id` of the last cover row
   * that registers it (or None when that row has no id).
   */
  lemma {:induction false} CoverLookupLastWins(cover: seq<Row>, k: string, i: nat)
    requires CoverLookup(cover).Ok?
    requires i < |cover| && k in RegisteredKeys(cover[i])
    requires forall j :: i < j < |cover| ==> k !in RegisteredKeys(cover[j])
    ensures k in CoverLookup(cover).value
    ensures CoverLookup(cover).value[k] == GetOrNull(cover[i], "cover_image_id")
    decreases |cover|
  {
    if i < |cover| - 1 {
      var prefix := cover[..|cover| - 1];
      assert forall j :: i < j < |prefix| ==> prefix[j] == cover[j];
      CoverLookupLastWins(prefix, k, i);
    }
  }

  /** The row's name, normalised, when it is a string that is a key of the table. */
  predicate NameHit(lookup: Lookup, row: Row) {
    Get(row, "name").Some? && Get(row, "name").value.Str?
    && NormalizedKey(Get(row, "name").value.s) in lookup
  }

  predicate DomainHit(lookup: Lookup, row: Row) {
    Get(row, "domain").Some? && Get(row, "domain").value.Str?
    && NormalizedKey(Get(row, "domain").value.s) in lookup
  }

  /**
   * Whether matching the row raises: a present `name` that is not a string,
   * or, when the name does not hit, a present `domain` that is not a string.
   */
  predicate RaisesOnTag(lookup: Lookup, row: Row) {
    (Get(row, "name").Some? && !Get(row, "name").value.Str?)
    || (!NameHit(lookup, row) && Get(row, "domain").Some? && !Get(row, "domain").value.Str?)
  }

  /**
   * The cover id found for a main-file row: its normalised `name` if that is a
   * key of the table, else its normalised `domain` if that is; Null when
   * neither is. `strip()` on a value that is not a string raises.
   */
  function FindCoverId(lookup: Lookup, row: Row): (r: Result<Value>)
    ensures r.Err? <==> RaisesOnTag(lookup, row)
    ensures r.Err? ==> r.error == if Get(row, "name").Some? && !Get(row, "name").value.Str?
                                  then AttributeError("name") else AttributeError("domain")
  {
    var byName: Result<Option<Value>> :=
      match Get(row, "name")
      case None => Ok(None)
      case Some(name) =>
        if !name.Str? then Err(AttributeError("name"))
        else if NormalizedKey(name.s) in lookup then Ok(Some(lookup[NormalizedKey(name.s)]))
        else Ok(None);
    match byName
    case Err(e) => Err(e)
    case Ok(Some(id)) => Ok(id)
    case Ok(None) =>
      match Get(row, "domain")
      case None => Ok(Null)
      case Some(domain) =>
        if !domain.Str? then Err(AttributeError("domain"))
        else if NormalizedKey(domain.s) in lookup then Ok(lookup[NormalizedKey(domain.s)])
        else Ok(Null)
  }

  /**
   * Tagging one main-file row: `cover_image_id` is set to the found id when
   * that id is truthy; otherwise the row is left as it is.
   */
  function Tagged(lookup: Lookup, row: Row): (r: Result<Row>)
    ensures r.Err? <==> RaisesOnTag(lookup, row)
    ensures r.Ok? ==> Keys(row) <= Keys(r.value) <= Keys(row) + {"cover_image_id"}
    ensures r.Ok? ==> forall k :: k != "cover_image_id" ==> Get(r.value, k) == Get(row, k)
    ensures DistinctKeys(row) && r.Ok? ==> DistinctKeys(r.value)
  {
    var id :- FindCoverId(lookup, row);
    if Truthy(id) then Ok(Set(row, "cover_image_id", id)) else Ok(row)
  }

  /** A name hit decides, whatever the domain says; a falsy id from it leaves the row as it is. */
  lemma NameTakesPriority(lookup: Lookup, row: Row)
    requires NameHit(lookup, row)
    ensures Tagged(lookup, row) ==
              var id := lookup[NormalizedKey(Get(row, "name").value.s)];
              Ok(if Truthy(id) then Set(row, "cover_image_id", id) else row)
  {
  }

  /** The domain is consulted only when the name is absent or misses. */
  lemma DomainFallback(lookup: Lookup, row: Row)
    requires "name" !in Keys(row) || (Get(row, "name").value.Str? && !NameHit(lookup, row))
    requires DomainHit(lookup, row)
    ensures Tagged(lookup, row) ==
              var id := lookup[NormalizedKey(Get(row, "domain").value.s)];
              Ok(if Truthy(id) then Set(row, "cover_image_id", id) else row)
  {
  }

  /** A row that matches neither way gains no column. */
  lemma Unmatched(lookup: Lookup, row: Row)
    requires "name" !in Keys(row) || (Get(row, "name").value.Str? && !NameHit(lookup, row))
    requires "domain" !in Keys(row) || (Get(row, "domain").value.Str? && !DomainHit(lookup, row))
    ensures Tagged(lookup, row) == Ok(row)
  {
  }

  /** add_cover_image_id on whole files: the table first, then every main row in order. */
  function CoverImageIds(rows: seq<Row>, cover: seq<Row>): (r: Result<seq<Row>>)
    ensures CoverLookup(cover).Err? ==> r == Err(CoverLookup(cover).error)
    ensures CoverLookup(cover).Ok? ==> (r.Ok? <==> forall i :: 0 <= i < |rows| ==> !RaisesOnTag(CoverLookup(cover).value, rows[i]))
    ensures r.Ok? ==> |r.value| == |rows|
                      && forall i :: 0 <= i < |rows| ==> Tagged(CoverLookup(cover).value, rows[i]) == Ok(r.value[i])
  {
    var lookup :- CoverLookup(cover);
    MapRows((row: Row) => Tagged(lookup, row), rows)
  }

  /** A cover row named "Acme" with id "7" registers the key "acme". */
  lemma AcmeLookup()
    ensures CoverLookup([[Field("name", Str("Acme")), Field("cover_image_id", Str("7"))]]) == Ok(map["acme" := Str("7")])
  {
    var coverRow := [Field("name", Str("Acme")), Field("cover_image_id", Str("7"))];
    var lookup := map["acme" := Str("7")];
    assert NormalizedKey("Acme") == "acme" by {
      assert StripLeft("Acme") == "Acme" && StripRight("Acme") == "Acme";
      assert Lower("Acme") == "acme";
    }
    assert [coverRow][..0] == [];
    assert GetOrNull(coverRow, "cover_image_id") == Str("7");
    assert RegisterValue(map[], "name", GetOrNull(coverRow, "name"), Str("7")) == Ok(lookup);
    assert RegisterValue(lookup, "domain", GetOrNull(coverRow, "domain"), Str("7")) == Ok(lookup);
  }

  /** A main row named "ACME " matches the key "acme" and gains its id. */
  lemma AcmeTagged()
    ensures Tagged(map["acme" := Str("7")], [Field("name", Str("ACME "))])
            == Ok([Field("name", Str("ACME ")), Field("cover_image_id", Str("7"))])
  {
    var mainRow := [Field("name", Str("ACME "))];
    assert NormalizedKey("ACME ") == "acme" by {
      var s := "ACME ";
      assert s[0] == 'A' && !IsSpace(s[0]);
      assert StripLeft(s) == s;
      assert s[4] == ' ' && IsSpace(s[4]);
      assert s == "ACME" + " ";
      assert s[..4] == "ACME";
      assert StripRight(s) == StripRight("ACME");
      assert "ACME"[3] == 'E' && !IsSpace("ACME"[3]);
      assert StripRight("ACME") == "ACME";
      assert Lower("ACME") == "acme";
    }
    assert Get(mainRow, "name") == Some(Str("ACME "));
    assert FindCoverId(map["acme" := Str("7")], mainRow) == Ok(Str("7"));
    assert Keys(mainRow) == {"name"};
    assert Set(mainRow, "cover_image_id", Str("7")) == mainRow + [Field("cover_image_id", Str("7"))];
    assert mainRow + [Field("cover_image_id", Str("7"))] == [Field("name", Str("ACME ")), Field("cover_image_id", Str("7"))];
  }

  /**
   * Example: a cover row named "Acme" with id "7" tags a main row named
   * "ACME ".
   */
  lemma AcmeExample()
    ensures CoverImageIds([[Field("name", Str("ACME "))]], [[Field("name", Str("Acme")), Field("cover_image_id", Str("7"))]])
            == Ok([[Field("name", Str("ACME ")), Field("cover_image_id", Str("7"))]])
  {
    var mainRow := [Field("name", Str("ACME "))];
    var tagged := [Field("name", Str("ACME ")), Field("cover_image_id", Str("7"))];
    var lookup := map["acme" := Str("7")];
    AcmeLookup();
    AcmeTagged();
    var r := MapRows((row: Row) => Tagged(lookup, row), [mainRow]);
    assert r.Ok? && |r.value| == 1 && r.value[0] == tagged;
    assert r.value == [tagged];
  }

  /** The first phase of add_cover_image_id: the loop that fills `cover_lookup`. */
  method BuildCoverLookup(cover: seq<Row>) returns (r: Result<Lookup>)
    ensures r == CoverLookup(cover)
  {
    var lookup: Lookup := map[];
    for i := 0 to |cover|
      invariant CoverLookup(cover[..i]) == Ok(lookup)
    {
      assert cover[..i + 1][..i] == cover[..i];
      var row := cover[i];
      var name := GetOrNull(row, "name");
      if Truthy(name) {
        if !name.Str? {
          CoverLookupStaysFailed(cover, i + 1);
          return Err(AttributeError("name"));
        }
        lookup := lookup[NormalizedKey(name.s) := GetOrNull(row, "cover_image_id")];
      }
      var domain := GetOrNull(row, "domain");
      if Truthy(domain) {
        if !domain.Str? {
          CoverLookupStaysFailed(cover, i + 1);
          return Err(AttributeError("domain"));
        }
        lookup := lookup[NormalizedKey(domain.s) := GetOrNull(row, "cover_image_id")];
      }
    }
    assert cover[..|cover|] == cover;
    return Ok(lookup);
  }

  /** Once a cover row raises, the rows after it do not matter. */
  lemma {:induction false} CoverLookupStaysFailed(cover: seq<Row>, n: nat)
    requires n <= |cover| && CoverLookup(cover[..n]).Err?
    ensures CoverLookup(cover) == CoverLookup(cover[..n])
    decreases |cover| - n
  {
    if n < |cover| {
      assert cover[..n + 1][..n] == cover[..n];
      CoverLookupStaysFailed(cover, n + 1);
    } else {
      assert cover[..n] == cover;
    }
  }

  /** The second phase of add_cover_image_id: the loop that tags the main rows. */
  method TagRows(data: array<Row>, lookup: Lookup) returns (outcome: Outcome)
    modifies data
    ensures outcome == StatusOf(MapRows((row: Row) => Tagged(lookup, row), old(data[..])))
    ensures outcome.Pass? ==> data[..] == MapRows((row: Row) => Tagged(lookup, row), old(data[..])).value
  {
    for i := 0 to data.Length
      invariant forall j :: 0 <= j < i ==> Tagged(lookup, old(data[j])) == Ok(data[j])
      invariant forall j :: i <= j < data.Length ==> data[j] == old(data[j])
    {
      var found := FindCoverId(lookup, data[i]);
      if found.Err? {
        FirstFailure((row: Row) => Tagged(lookup, row), old(data[..]), i);
        return Fail(found.error);
      }
      var coverImageId := found.value;
      if Truthy(coverImageId) {
        data[i] := Set(data[i], "cover_image_id", coverImageId);
      }
    }
    assert forall j :: 0 <= j < data.Length ==> Tagged(lookup, old(data[..])[j]) == Ok(data[..][j]);
    return Pass;
  }

  /** add_cover_image_id. */
  method AddCoverImageId(data: array<Row>, cover: seq<Row>) returns (outcome: Outcome)
    modifies data
    ensures outcome == StatusOf(CoverImageIds(old(data[..]), cover))
    ensures outcome.Pass? ==> data[..] == CoverImageIds(old(data[..]), cover).value
  {
    var built := BuildCoverLookup(cover);
    if built.Err? {
      return Fail(built.error);
    }
    outcome := TagRows(data, built.value);
  }
}
