/** csv_csv_mac.py: the access-point names and addresses of ap_ip.csv are
    read into a name-to-address dictionary, and every row of ap1.csv whose
    name is in it is appended to output_csv.csv with that address and the
    row's MAC address. Files are their rows of cells; the CSV tokeniser and
    writer's quoting are left to the `csv` module. */
module ApJoin {
  import opened Common

  /** A row the script uses: at least two cells. */
  predicate Usable(row: seq<string>) { |row| >= 2 }

  /** `first_csv_data` after the given rows: name to address, a later row
      overwriting an earlier one with the same name. */
  function NameToIp(rows: seq<seq<string>>): map<string, string> {
    if rows == [] then map[]
    else
      var m := NameToIp(rows[..|rows| - 1]);
      var row := rows[|rows| - 1];
      if Usable(row) then m[row[0] := row[1]] else m
  }

  /** A name is in the dictionary exactly when some usable row carries it,
      and its address is the second cell of the last such row. */
  lemma {:induction false} NameToIpMeaning(rows: seq<seq<string>>, name: string)
    ensures name in NameToIp(rows) <==> exists i :: 0 <= i < |rows| && Usable(rows[i]) && rows[i][0] == name
    ensures forall i ::
      (0 <= i < |rows| && Usable(rows[i]) && rows[i][0] == name
       && (forall j :: i < j < |rows| && Usable(rows[j]) ==> rows[j][0] != name))
      ==> (name in NameToIp(rows) && NameToIp(rows)[name] == rows[i][1])
  {
    if rows != [] {
      var init := rows[..|rows| - 1];
      NameToIpMeaning(init, name);
      assert forall i :: 0 <= i < |init| ==> init[i] == rows[i];
    }
  }

  /** Cells past the second play no part. */
  lemma {:induction false} ExtraCellsIgnored(rows: seq<seq<string>>, cut: seq<seq<string>>)
    requires |cut| == |rows|
    requires forall i :: 0 <= i < |rows| ==> (Usable(rows[i]) <==> Usable(cut[i]))
    requires forall i :: 0 <= i < |rows| && Usable(rows[i]) && Usable(cut[i]) ==> rows[i][0] == cut[i][0] && rows[i][1] == cut[i][1]
    ensures NameToIp(rows) == NameToIp(cut)
    ensures forall m :: Joined(m, rows) == Joined(m, cut)
  {
    if rows != [] {
      var n := |rows| - 1;
      ExtraCellsIgnored(rows[..n], cut[..n]);
    }
  }

  /** The `ap_ip.csv` loop. */
  method LoadNames(rows: seq<seq<string>>) returns (firstCsvData: map<string, string>)
    ensures firstCsvData == NameToIp(rows)
  {
    firstCsvData := map[];
    for n := 0 to |rows|
      invariant firstCsvData == NameToIp(rows[..n])
    {
      assert rows[..n + 1][..n] == rows[..n] && rows[..n + 1][n] == rows[n];
      var row := rows[n];
      if |row| < 2 {
        continue;
      }
      firstCsvData := firstCsvData[row[0] := row[1]];
    }
    assert rows[..|rows|] == rows;
  }

  /** The rows written for the `ap1.csv` rows, in their order. */
  function Joined(m: map<string, string>, rows: seq<seq<string>>): seq<seq<string>> {
    if rows == [] then []
    else
      var prev := Joined(m, rows[..|rows| - 1]);
      var row := rows[|rows| - 1];
      if Usable(row) && row[0] in m then prev + [[row[0], m[row[0]], row[1]]] else prev
  }

  /** Every written row is a known name, its address from the dictionary and
      the MAC of an `ap1.csv` row with that name; rows of unknown names or
      with fewer than two cells are dropped, so there are at most as many
      written rows as input rows. */
  lemma {:induction false} JoinedMeaning(m: map<string, string>, rows: seq<seq<string>>)
    ensures |Joined(m, rows)| <= |rows|
    ensures forall k :: 0 <= k < |Joined(m, rows)| ==> exists i :: (
      && 0 <= i < |rows| && Usable(rows[i])
      && rows[i][0] in m && Joined(m, rows)[k] == [rows[i][0], m[rows[i][0]], rows[i][1]])
    ensures (forall i :: 0 <= i < |rows| ==> Usable(rows[i]) && rows[i][0] in m) ==> |Joined(m, rows)| == |rows|
    ensures (forall i :: 0 <= i < |rows| && Usable(rows[i]) ==> rows[i][0] !in m) ==> Joined(m, rows) == []
  {
    if rows != [] {
      var init := rows[..|rows| - 1];
      JoinedMeaning(m, init);
      assert forall i :: 0 <= i < |init| ==> init[i] == rows[i];
    }
  }

  /** The positions of the `ap1.csv` rows that are written: in ascending
      order, each a usable row with a known name, and every such row listed. */
  function JoinPositions(m: map<string, string>, rows: seq<seq<string>>): (r: seq<nat>)
    ensures forall j :: 0 <= j < |r| ==> r[j] < |rows| && Usable(rows[r[j]]) && rows[r[j]][0] in m
    ensures forall j, k :: 0 <= j < k < |r| ==> r[j] < r[k]
    ensures forall i :: 0 <= i < |rows| && Usable(rows[i]) && rows[i][0] in m ==> i in r
  {
    if rows == [] then []
    else
      var init := rows[..|rows| - 1];
      assert forall i :: 0 <= i < |init| ==> init[i] == rows[i];
      var prev := JoinPositions(m, init);
      var row := rows[|rows| - 1];
      if Usable(row) && row[0] in m then prev + [|rows| - 1] else prev
  }

  /** The k-th written row is the joined form of the k-th row the join keeps:
      every usable `ap1.csv` row with a known name is written as its name,
      the dictionary's address and its MAC, in `ap1.csv` order, and no other
      row is written. */
  lemma {:induction false} JoinedAtPositions(m: map<string, string>, rows: seq<seq<string>>)
    ensures |Joined(m, rows)| == |JoinPositions(m, rows)|
    ensures forall k :: 0 <= k < |Joined(m, rows)| ==>
      var p := JoinPositions(m, rows)[k];
      Joined(m, rows)[k] == [rows[p][0], m[rows[p][0]], rows[p][1]]
  {
    if rows != [] {
      var init := rows[..|rows| - 1];
      JoinedAtPositions(m, init);
      assert forall i :: 0 <= i < |init| ==> init[i] == rows[i];
      var prev, pos := Joined(m, init), JoinPositions(m, init);
      var row := rows[|rows| - 1];
      if Usable(row) && row[0] in m {
        assert Joined(m, rows) == prev + [[row[0], m[row[0]], row[1]]];
        assert JoinPositions(m, rows) == pos + [|rows| - 1];
        forall k | 0 <= k < |prev|
          ensures Joined(m, rows)[k] == prev[k] && JoinPositions(m, rows)[k] == pos[k]
        {
        }
      }
    }
  }

  /** The `ap1.csv` loop. */
  method JoinRows(m: map<string, string>, rows: seq<seq<string>>) returns (written: seq<seq<string>>)
    ensures written == Joined(m, rows)
  {
    written := [];
    for n := 0 to |rows|
      invariant written == Joined(m, rows[..n])
    {
      assert rows[..n + 1][..n] == rows[..n] && rows[..n + 1][n] == rows[n];
      var row := rows[n];
      if |row| < 2 {
        continue;
      }
      if row[0] in m {
        written := written + [[row[0], m[row[0]], row[1]]];
      }
    }
    assert rows[..|rows|] == rows;
  }

  const Header: seq<string> := ["Client_Name", "Client_IP_Address", "MAC_Address"]

  /** The whole script: `existing` is what output_csv.csv already holds. The
      file is opened for appending, so every run adds another header row. */
  method Run(apIp: seq<seq<string>>, ap1: seq<seq<string>>, existing: seq<seq<string>>) returns (output: seq<seq<string>>)
    ensures output == existing + [Header] + Joined(NameToIp(apIp), ap1)
  {
    var firstCsvData := LoadNames(apIp);
    var rows := JoinRows(firstCsvData, ap1);
    output := existing + [Header] + rows;
  }
}
