/** csv_json_verify_IP.py: every client of the CSV export is looked up by
    name in the organisation's JSON client list, and a client whose JSON
    `lanIp` differs from the exported address is written to a mismatch CSV.
    The CSV rows are `DictReader` dictionaries and the JSON list holds
    objects; the file parsers themselves are left out. */
module ClientIps {
  import opened Common

  /** A field value: a string, or `None` (a JSON null, or the filler
      `DictReader` puts in the columns a short row lacks), or a JSON number. */
  datatype Value = Str(s: string) | Null | Num(n: int)

  /** A CSV row or a JSON object: field name to value. */
  type Record = map<string, Value>

  /** The `next((item for item in json_data if item['name'] == name), None)`
      search: the first item with that name, none, or the `KeyError` of an
      item without a 'name' field met before any match. */
  datatype Search = Found(index: nat) | Absent | NameMissing

  function FindByName(items: seq<Record>, name: Value, from: nat): (r: Search)
    requires from <= |items|
    ensures r.Found? ==> from <= r.index < |items| && "name" in items[r.index] && items[r.index]["name"] == name
    ensures r.Found? || r.Absent? ==>
      forall i :: from <= i < (if r.Found? then r.index else |items|) ==> "name" in items[i] && items[i]["name"] != name
    ensures r.NameMissing? ==> exists i :: from <= i < |items| && "name" !in items[i]
    decreases |items| - from
  {
    if from == |items| then Absent
    else if "name" !in items[from] then NameMissing
    else if items[from]["name"] == name then Found(from)
    else FindByName(items, name, from + 1)
  }

  /** One entry of `mismatched_entries`. */
  datatype Mismatch = Mismatch(clientName: Value, clientIp: Value, currentIp: Value)

  /** What the loop body does with one CSV row: nothing, one mismatch, or a
      `KeyError` that ends the script. */
  datatype Step = Nothing | Record(m: Mismatch) | Fails

  function CheckRow(row: Record, items: seq<Record>): Step {
    if "Client_Name" !in row || "Client_IP_Address" !in row then Fails
    else
      var s := FindByName(items, row["Client_Name"], 0);
      if s.NameMissing? then Fails
      else if s.Absent? then Nothing
      else if "lanIp" !in items[s.index] then Fails
      else if items[s.index]["lanIp"] != row["Client_IP_Address"] then
        Record(Mismatch(row["Client_Name"], row["Client_IP_Address"], items[s.index]["lanIp"]))
      else Nothing
  }

  /** The mismatches after the given CSV rows, or None once the script has
      failed. */
  function Mismatches(rows: seq<Record>, items: seq<Record>): Option<seq<Mismatch>> {
    if rows == [] then Some([])
    else
      var prev := Mismatches(rows[..|rows| - 1], items);
      var step := CheckRow(rows[|rows| - 1], items);
      if prev.None? || step.Fails? then None
      else if step.Record? then Some(prev.value + [step.m])
      else prev
  }

  /** A row is reported exactly when its name has a first JSON match whose
      `lanIp` differs from the exported address; the record holds the CSV
      name and address and the JSON address. Names absent from the JSON give
      nothing. */
  lemma CheckRowMeaning(row: Record, items: seq<Record>)
    requires "Client_Name" in row && "Client_IP_Address" in row
    requires forall i :: 0 <= i < |items| ==> "name" in items[i] && "lanIp" in items[i]
    ensures var s := FindByName(items, row["Client_Name"], 0);
      && !s.NameMissing?
      && (CheckRow(row, items).Record? <==> s.Found? && items[s.index]["lanIp"] != row["Client_IP_Address"])
      && (CheckRow(row, items).Record? ==>
            CheckRow(row, items).m == Mismatch(row["Client_Name"], row["Client_IP_Address"], items[s.index]["lanIp"]))
      && (s.Absent? ==> CheckRow(row, items) == Nothing)
  {
  }

  /** The match is the first JSON object carrying the name, so a later
      object with the same name is never consulted. */
  lemma FirstMatchWins(items: seq<Record>, name: Value, i: nat)
    requires i < |items| && "name" in items[i] && items[i]["name"] == name
    requires forall k :: 0 <= k < i ==> "name" in items[k]
    ensures FindByName(items, name, 0).Found? && FindByName(items, name, 0).index <= i
  {
    FindStopsAt(items, name, 0, i);
  }

  lemma {:induction false} FindStopsAt(items: seq<Record>, name: Value, from: nat, i: nat)
    requires from <= i < |items| && "name" in items[i] && items[i]["name"] == name
    requires forall k :: from <= k < i ==> "name" in items[k]
    ensures FindByName(items, name, from).Found?
    decreases i - from
  {
    if from < i && items[from]["name"] != name {
      FindStopsAt(items, name, from + 1, i);
    }
  }

  /** At most one record per CSV row, and every record is the record of some
      reporting row. */
  lemma {:induction false} MismatchesBound(rows: seq<Record>, items: seq<Record>)
    requires Mismatches(rows, items).Some?
    ensures |Mismatches(rows, items).value| <= |rows|
    ensures forall k :: 0 <= k < |Mismatches(rows, items).value| ==>
      exists i :: 0 <= i < |rows| && CheckRow(rows[i], items) == Record(Mismatches(rows, items).value[k])
  {
    if rows != [] {
      var init := rows[..|rows| - 1];
      MismatchesBound(init, items);
      assert forall i :: 0 <= i < |init| ==> init[i] == rows[i];
    }
  }

  /** The positions of the CSV rows that report a mismatch: ascending, each a
      reporting row, and every reporting row listed. */
  function MismatchPositions(rows: seq<Record>, items: seq<Record>): (r: seq<nat>)
    ensures forall j :: 0 <= j < |r| ==> r[j] < |rows| && CheckRow(rows[r[j]], items).Record?
    ensures forall j, k :: 0 <= j < k < |r| ==> r[j] < r[k]
    ensures forall i :: 0 <= i < |rows| && CheckRow(rows[i], items).Record? ==> i in r
  {
    if rows == [] then []
    else
      var init := rows[..|rows| - 1];
      assert forall i :: 0 <= i < |init| ==> init[i] == rows[i];
      var prev := MismatchPositions(init, items);
      if CheckRow(rows[|rows| - 1], items).Record? then prev + [|rows| - 1] else prev
  }

  /** When no row raises, `mismatched_entries` holds the record of every
      reporting row and nothing else, in CSV order: its k-th entry is the
      record of the k-th reporting row. */
  lemma {:induction false} MismatchesAtPositions(rows: seq<Record>, items: seq<Record>)
    requires Mismatches(rows, items).Some?
    ensures |Mismatches(rows, items).value| == |MismatchPositions(rows, items)|
    ensures forall k :: 0 <= k < |Mismatches(rows, items).value| ==>
      Mismatches(rows, items).value[k] == CheckRow(rows[MismatchPositions(rows, items)[k]], items).m
  {
    if rows != [] {
      var init := rows[..|rows| - 1];
      assert forall i :: 0 <= i < |init| ==> init[i] == rows[i];
      MismatchesAtPositions(init, items);
      var prev, pos := Mismatches(init, items).value, MismatchPositions(init, items);
      var step := CheckRow(rows[|rows| - 1], items);
      if step.Record? {
        assert Mismatches(rows, items).value == prev + [step.m];
        assert MismatchPositions(rows, items) == pos + [|rows| - 1];
        forall k | 0 <= k < |prev|
          ensures Mismatches(rows, items).value[k] == prev[k] && MismatchPositions(rows, items)[k] == pos[k]
        {
        }
      }
    }
  }

  /** The script fails exactly when some CSV row raises a `KeyError`. */
  lemma {:induction false} MismatchesFailIff(rows: seq<Record>, items: seq<Record>)
    ensures Mismatches(rows, items).None? <==> exists n :: 0 <= n < |rows| && CheckRow(rows[n], items).Fails?
  {
    if rows != [] {
      var init := rows[..|rows| - 1];
      assert forall i :: 0 <= i < |init| ==> init[i] == rows[i];
      MismatchesFailIff(init, items);
      if Mismatches(init, items).None? {
        var n :| 0 <= n < |init| && CheckRow(init[n], items).Fails?;
        assert CheckRow(rows[n], items).Fails?;
      }
    }
  }

  /** The script's loop over the CSV rows: it fails exactly when some row
      raises, and otherwise collects the record of every reporting row, in
      CSV order. */
  method CheckMismatches(rows: seq<Record>, items: seq<Record>) returns (r: Option<seq<Mismatch>>)
    ensures r == Mismatches(rows, items)
    ensures r.None? <==> exists n :: 0 <= n < |rows| && CheckRow(rows[n], items).Fails?
    ensures r.Some? ==> |r.value| == |MismatchPositions(rows, items)|
    ensures r.Some? ==> forall k :: 0 <= k < |r.value| ==>
      r.value[k] == CheckRow(rows[MismatchPositions(rows, items)[k]], items).m
  {
    MismatchesFailIff(rows, items);
    if Mismatches(rows, items).Some? {
      MismatchesAtPositions(rows, items);
    }
    var mismatched: seq<Mismatch> := [];
    for n := 0 to |rows|
      invariant Mismatches(rows[..n], items) == Some(mismatched)
    {
      assert rows[..n + 1][..n] == rows[..n] && rows[..n + 1][n] == rows[n];
      var step := CheckRow(rows[n], items);
      if step.Fails? {
        FailureIsFinal(rows, items, n);
        return None;
      }
      if step.Record? {
        mismatched := mismatched + [step.m];
      }
    }
    assert rows[..|rows|] == rows;
    return Some(mismatched);
  }

  /** Once a row fails, the whole run fails. */
  lemma FailureIsFinal(rows: seq<Record>, items: seq<Record>, n: nat)
    requires n < |rows| && CheckRow(rows[n], items).Fails?
    ensures Mismatches(rows, items).None?
  {
    FailureFrom(rows, items, n, |rows|);
  }

  lemma {:induction false} FailureFrom(rows: seq<Record>, items: seq<Record>, n: nat, m: nat)
    requires n < m <= |rows| && CheckRow(rows[n], items).Fails?
    ensures Mismatches(rows[..m], items).None?
    decreases m
  {
    assert rows[..m][..m - 1] == rows[..m - 1] && rows[..m][m - 1] == rows[m - 1];
    if m - 1 > n {
      FailureFrom(rows, items, n, m - 1);
    }
    if m == |rows| {
      assert rows[..m] == rows;
    }
  }

  const Fieldnames: seq<string> := ["Client_Name", "Client_IP_Address", "Current_IP_Address"]

  /** `write_mismatched_csv`: the header row, then one row per mismatch,
      cells in header order. */
  function OutputRows(ms: seq<Mismatch>): (r: seq<seq<Value>>)
    ensures |r| == |ms| + 1 && r[0] == [Str("Client_Name"), Str("Client_IP_Address"), Str("Current_IP_Address")]
    ensures forall k :: 0 <= k < |ms| ==> r[k + 1] == [ms[k].clientName, ms[k].clientIp, ms[k].currentIp]
  {
    [[Str(Fieldnames[0]), Str(Fieldnames[1]), Str(Fieldnames[2])]]
    + seq(|ms|, k requires 0 <= k < |ms| => [ms[k].clientName, ms[k].clientIp, ms[k].currentIp])
  }
}
