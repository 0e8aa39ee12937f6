/**
 * The row loop of `convert_csv_to_json` in `convert_sdg_data.py`: a non-empty
 * `sdgs` column, a comma-separated list of goal numbers, is replaced by the
 * list of those numbers. The JSON rendering that follows is not modelled.
 */
module ConvertSdg {

  import opened Wrappers
  import opened Text
  import opened Records

  /**
   * `[int(t.strip()) for t in tokens]`: the comprehension runs in order, so
   * the first token that is not an integer literal raises.
   */
  function ParseTokens(tokens: seq<string>): (r: Result<seq<int>>)
    ensures r.Ok? <==> forall i :: 0 <= i < |tokens| ==> ParseInt(Strip(tokens[i])).Some?
    ensures r.Ok? ==> |r.value| == |tokens|
    ensures r.Ok? ==> forall i :: 0 <= i < |tokens| ==> ParseInt(Strip(tokens[i])) == Some(r.value[i])
    ensures r.Err? ==> exists i :: 0 <= i < |tokens| && ParseInt(Strip(tokens[i])).None?
                                   && r.error == ValueError(Strip(tokens[i]))
                                   && forall j :: 0 <= j < i ==> ParseInt(Strip(tokens[j])).Some?
  {
    if tokens == [] then Ok([])
    else
      match ParseInt(Strip(tokens[0]))
      case None => Err(ValueError(Strip(tokens[0])))
      case Some(n) =>
        var rest := ParseTokens(tokens[1..]);
        assert forall i :: 1 <= i < |tokens| ==> tokens[i] == tokens[1..][i - 1];
        if rest.Err? then Err(rest.error) else Ok([n] + rest.value)
  }

  /**
   * The value of a non-empty `sdgs` string: one number per comma-separated
   * piece, so one more than there are commas, each the value of its piece
   * without surrounding whitespace.
   */
  function ParseSdgs(s: string): (r: Result<seq<int>>)
    ensures r.Ok? ==> |r.value| == Count(s, ',') + 1
    ensures r.Ok? ==> forall i :: 0 <= i < |r.value| ==> ParseInt(Strip(Split(s, ',')[i])) == Some(r.value[i])
    ensures r.Err? ==> exists i :: 0 <= i < |Split(s, ',')| && r.error == ValueError(Strip(Split(s, ',')[i]))
                                   && ParseInt(Strip(Split(s, ',')[i])).None?
  {
    ParseTokens(Split(s, ','))
  }

  lemma SpacedTokens()
    ensures ParseTokens(["1", " 3", "7"]) == Ok([1, 3, 7])
  {
    assert Strip(" 3") == "3" by {
      assert StripLeft(" 3") == "3" by { assert " 3"[1..] == "3"; }
    }
    assert Strip("1") == "1" && Strip("7") == "7";
    assert ParseInt("1") == Some(1) && ParseInt("3") == Some(3) && ParseInt("7") == Some(7);
    var r := ParseTokens(["1", " 3", "7"]);
    assert r.Ok? && |r.value| == 3;
    assert r.value == [1, 3, 7];
  }

  /** `"1, 3,7"` becomes `[1, 3, 7]`. */
  lemma SpacedExample()
    ensures ParseSdgs("1, 3,7") == Ok([1, 3, 7])
  {
    SplitJoin(["1", " 3", "7"], ',');
    assert Join(["1", " 3", "7"], ',') == "1, 3,7";
    SpacedTokens();
  }

  lemma EmptyTokenRaises()
    ensures ParseTokens(["1", "", "2"]) == Err(ValueError(""))
    ensures ParseTokens(["1", "2", ""]) == Err(ValueError(""))
  {
    assert Strip("") == "" && ParseInt("") == None;
    assert ParseInt(Strip("1")) == Some(1) && ParseInt(Strip("2")) == Some(2);
  }

  /** The empty piece between two commas, or after a trailing one, is not an integer literal. */
  lemma EmptyPieceRaises()
    ensures ParseSdgs("1,,2") == Err(ValueError(""))
    ensures ParseSdgs("1,2,") == Err(ValueError(""))
  {
    SplitJoin(["1", "", "2"], ',');
    assert Join(["1", "", "2"], ',') == "1,,2";
    SplitJoin(["1", "2", ""], ',');
    assert Join(["1", "2", ""], ',') == "1,2,";
    EmptyTokenRaises();
  }

  /** The decimal renderings of `xs`, as `str(x)` would write them. */
  function Rendered(xs: seq<int>): (r: seq<string>)
    ensures |r| == |xs|
  {
    seq(|xs|, i requires 0 <= i < |xs| => IntToString(xs[i]))
  }

  /** Joining numbers with commas and converting gives the numbers back. */
  lemma {:induction false} RenderParse(xs: seq<int>)
    requires xs != []
    ensures ParseSdgs(Join(Rendered(xs), ',')) == Ok(xs)
  {
    var parts := Rendered(xs);
    forall i | 0 <= i < |parts|
      ensures ',' !in parts[i] && ParseInt(Strip(parts[i])) == Some(xs[i])
    {
      IntToStringShape(xs[i]);
      ParseIntToString(xs[i]);
    }
    SplitJoin(parts, ',');
    var r := ParseTokens(parts);
    assert r.Ok?;
    assert r.value == xs;
  }

  /**
   * One row: `if 'sdgs' in row and row['sdgs']:` the string is split and
   * parsed; `.split` on a value that is not a string raises.
   */
  function ConvertRow(row: Row): (r: Result<Row>)
    ensures !("sdgs" in Keys(row) && Truthy(GetOrNull(row, "sdgs"))) ==> r == Ok(row)
    ensures "sdgs" in Keys(row) && Truthy(GetOrNull(row, "sdgs")) && !GetOrNull(row, "sdgs").Str?
            ==> r == Err(AttributeError("sdgs"))
    ensures "sdgs" in Keys(row) && Truthy(GetOrNull(row, "sdgs")) && GetOrNull(row, "sdgs").Str?
            ==> && (r.Ok? <==> ParseSdgs(GetOrNull(row, "sdgs").s).Ok?)
                && (r.Err? ==> r.error == ParseSdgs(GetOrNull(row, "sdgs").s).error)
    ensures r.Ok? ==> Keys(r.value) == Keys(row)
    ensures r.Ok? ==> forall k :: k != "sdgs" ==> Get(r.value, k) == Get(row, k)
    ensures r.Ok? && "sdgs" in Keys(row) && Truthy(GetOrNull(row, "sdgs"))
            ==> GetOrNull(row, "sdgs").Str? && ParseSdgs(GetOrNull(row, "sdgs").s).Ok?
                && Get(r.value, "sdgs") == Some(IntList(ParseSdgs(GetOrNull(row, "sdgs").s).value))
    ensures DistinctKeys(row) && r.Ok? ==> DistinctKeys(r.value)
  {
    var sdgs := GetOrNull(row, "sdgs");
    if "sdgs" in Keys(row) && Truthy(sdgs) then
      if !sdgs.Str? then Err(AttributeError("sdgs"))
      else
        var xs :- ParseSdgs(sdgs.s);
        Ok(Set(row, "sdgs", IntList(xs)))
    else Ok(row)
  }

  /** The whole loop: every row in order, the first bad row ending the run. */
  function ConvertAll(rows: seq<Row>): (r: Result<seq<Row>>)
    ensures r.Ok? <==> forall i :: 0 <= i < |rows| ==> ConvertRow(rows[i]).Ok?
    ensures r.Ok? ==> |r.value| == |rows| && forall i :: 0 <= i < |rows| ==> ConvertRow(rows[i]) == Ok(r.value[i])
    ensures r.Err? ==> exists i :: 0 <= i < |rows| && ConvertRow(rows[i]) == Err(r.error)
                                   && forall j :: 0 <= j < i ==> ConvertRow(rows[j]).Ok?
  {
    MapRows(ConvertRow, rows)
  }

  /**
   * The conversion cannot be applied twice: a converted list is never empty,
   * so a second pass reaches `.split` on it and raises.
   */
  lemma ConvertedRowRaisesAgain(row: Row)
    requires "sdgs" in Keys(row) && Truthy(GetOrNull(row, "sdgs")) && ConvertRow(row).Ok?
    ensures ConvertRow(ConvertRow(row).value) == Err(AttributeError("sdgs"))
  {
    var r := ConvertRow(row).value;
    assert Get(r, "sdgs").value.IntList?;
    assert |Get(r, "sdgs").value.xs| == Count(GetOrNull(row, "sdgs").s, ',') + 1;
  }

  /** convert_csv_to_json, up to the JSON rendering: the rows are rewritten in place. */
  method ConvertSdgs(data: array<Row>) returns (outcome: Outcome)
    modifies data
    ensures outcome == StatusOf(ConvertAll(old(data[..])))
    ensures outcome.Pass? ==> data[..] == ConvertAll(old(data[..])).value
  {
    for i := 0 to data.Length
      invariant forall j :: 0 <= j < i ==> ConvertRow(old(data[j])) == Ok(data[j])
      invariant forall j :: i <= j < data.Length ==> data[j] == old(data[j])
    {
      var row := data[i];
      if "sdgs" in Keys(row) && Truthy(Get(row, "sdgs").value) {
        var sdgs := Get(row, "sdgs").value;
        if !sdgs.Str? {
          FirstFailure(ConvertRow, old(data[..]), i);
          return Fail(AttributeError("sdgs"));
        }
        var parsed := ParseTokens(Split(sdgs.s, ','));
        if parsed.Err? {
          FirstFailure(ConvertRow, old(data[..]), i);
          return Fail(parsed.error);
        }
        data[i] := Set(row, "sdgs", IntList(parsed.value));
      }
    }
    assert forall j :: 0 <= j < data.Length ==> ConvertRow(old(data[..])[j]) == Ok(data[..][j]);
    return Pass;
  }
}
