/** compare_csv.py: the 'IP_Address' column of ExportCP.csv and the
    'IP Address' column of Devices1.csv are read into sets, and the device
    addresses missing from the export are printed, each once, in the set's
    own order. The CSV rows are `DictReader` dictionaries; the tokeniser is
    left to the `csv` module. */
module IpColumns {
  import opened Common

  /** A `DictReader` row: column name to cell; `None` is the filler of the
      columns a short row lacks. */
  type Row = map<string, Option<string>>

  /** The set the `.add(row[key])` loop builds after the given rows, or
      None once a row without that column raised `KeyError`. */
  function Column(rows: seq<Row>, key: string): Option<set<Option<string>>> {
    if rows == [] then Some({})
    else
      var prev := Column(rows[..|rows| - 1], key);
      var row := rows[|rows| - 1];
      if prev.None? || key !in row then None else Some(prev.value + {row[key]})
  }

  /** The loop fails exactly when some row lacks the column; otherwise the
      set holds exactly the cells of that column, duplicates collapsed. */
  lemma {:induction false} ColumnMeaning(rows: seq<Row>, key: string, v: Option<string>)
    ensures Column(rows, key).Some? <==> forall i :: 0 <= i < |rows| ==> key in rows[i]
    ensures Column(rows, key).Some? ==>
      (v in Column(rows, key).value <==> exists i :: 0 <= i < |rows| && rows[i][key] == v)
  {
    if rows != [] {
      var init := rows[..|rows| - 1];
      ColumnMeaning(init, key, v);
      assert forall i :: 0 <= i < |init| ==> init[i] == rows[i];
    }
  }

  /** One of the two reading loops. */
  method CollectColumn(rows: seq<Row>, key: string) returns (ips: Option<set<Option<string>>>)
    ensures ips == Column(rows, key)
  {
    var found: set<Option<string>> := {};
    for n := 0 to |rows|
      invariant Column(rows[..n], key) == Some(found)
    {
      assert rows[..n + 1][..n] == rows[..n] && rows[..n + 1][n] == rows[n];
      var row := rows[n];
      if key !in row {
        ColumnMeaning(rows, key, None);
        return None;
      }
      found := found + {row[key]};
    }
    assert rows[..|rows|] == rows;
    return Some(found);
  }

  /** `four_leaf_ips - export_cp_ips`, or None when either reading loop
      raised; ExportCP.csv is read first. */
  function Missing(exportCp: seq<Row>, devices: seq<Row>): Option<set<Option<string>>> {
    var e := Column(exportCp, "IP_Address");
    if e.None? then None
    else
      var d := Column(devices, "IP Address");
      if d.None? then None else Some(d.value - e.value)
  }

  /** An address is reported exactly when some device row carries it and no
      export row does; the comparison is on the raw cell text. */
  lemma MissingMeaning(exportCp: seq<Row>, devices: seq<Row>, v: Option<string>)
    requires Missing(exportCp, devices).Some?
    ensures v in Missing(exportCp, devices).value <==>
      (exists i :: 0 <= i < |devices| && "IP Address" in devices[i] && devices[i]["IP Address"] == v)
      && !(exists i :: 0 <= i < |exportCp| && "IP_Address" in exportCp[i] && exportCp[i]["IP_Address"] == v)
  {
    ColumnMeaning(exportCp, "IP_Address", v);
    ColumnMeaning(devices, "IP Address", v);
  }

  /** The printing loop: every address of the set once, in some order. */
  method PrintMissing(missing: set<Option<string>>) returns (printed: seq<Option<string>>)
    ensures |printed| == |missing|
    ensures forall x :: x in printed <==> x in missing
    ensures forall j, k :: 0 <= j < k < |printed| ==> printed[j] != printed[k]
  {
    printed := [];
    var rest := missing;
    while rest != {}
      invariant rest <= missing
      invariant forall x :: x in printed <==> x in missing && x !in rest
      invariant forall j, k :: 0 <= j < k < |printed| ==> printed[j] != printed[k]
      invariant |printed| + |rest| == |missing|
      decreases |rest|
    {
      var ip :| ip in rest;
      printed := printed + [ip];
      rest := rest - {ip};
    }
  }

  /** The whole script: None when a reading loop raised, otherwise what is
      printed after the heading. */
  method CompareCsv(exportCp: seq<Row>, devices: seq<Row>) returns (printed: Option<seq<Option<string>>>)
    ensures printed.None? <==> Missing(exportCp, devices).None?
    ensures printed.Some? ==>
      && |printed.value| == |Missing(exportCp, devices).value|
      && (forall x :: x in printed.value <==> x in Missing(exportCp, devices).value)
  {
    var exportCpIps := CollectColumn(exportCp, "IP_Address");
    if exportCpIps.None? {
      return None;
    }
    var fourLeafIps := CollectColumn(devices, "IP Address");
    if fourLeafIps.None? {
      return None;
    }
    var missingIps := fourLeafIps.value - exportCpIps.value;
    var lines := PrintMissing(missingIps);
    return Some(lines);
  }
}
