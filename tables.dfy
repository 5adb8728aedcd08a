/** The tables the notebook reads and the compound sets it derives from them:
    the compounds measured at every dose, the MOA-to-compounds dictionary and
    the MOA-size classes. Only metadata columns are modelled; the measured
    features play no part in these steps. */
module Tables {
  import opened Domain
  import opened Collections
  import Strings

  /** One signature (row) of the level-5 table: the compound, its MOA and its dose (1-6). */
  datatype Signature = Signature(pertIname: Compound, moa: Moa, dose: int)

  /** Some signature of compound `cpd` was measured at `dose`. */
  ghost predicate MeasuredAt(data: seq<Signature>, cpd: Compound, dose: int) {
    exists i :: 0 <= i < |data| && data[i].pertIname == cpd && data[i].dose == dose
  }

  /** Some signature of compound `cpd` carries the label `moa`. */
  ghost predicate LabelledWith(data: seq<Signature>, cpd: Compound, moa: Moa) {
    exists i :: 0 <= i < |data| && data[i].pertIname == cpd && data[i].moa == moa
  }

  /** `df['pert_iname'][mask]`: the compound column of the rows `keep` selects, in row order. */
  function NamesWhere(data: seq<Signature>, keep: Signature -> bool): (names: seq<Compound>)
    ensures forall c :: c in names <==> exists i :: 0 <= i < |data| && keep(data[i]) && data[i].pertIname == c
    decreases |data|
  {
    if data == [] then []
    else
      var tail := NamesWhere(data[1..], keep);
      assert forall i :: 1 <= i < |data| ==> data[i] == data[1..][i - 1];
      if keep(data[0]) then [data[0].pertIname] + tail else tail
  }

  /** The index of `get_cpd_agg(data, dose)`: the compounds with a signature at `dose`, each once. */
  function CompoundsAtDose(data: seq<Signature>, dose: int): (cpds: seq<Compound>)
    ensures Distinct(cpds)
    ensures forall c :: c in cpds <==> MeasuredAt(data, c, dose)
  {
    Unique(NamesWhere(data, (s: Signature) => s.dose == dose))
  }

  /** `c` occurs in every list of `lists`. */
  predicate InEvery(c: Compound, lists: seq<seq<Compound>>) {
    forall j :: 0 <= j < |lists| ==> c in lists[j]
  }

  /** The comprehension of `cpds_found_in_all_doses`: every compound of `rest`, list after
      list, that occurs in all of `lists`. */
  function KeepInEvery(rest: seq<seq<Compound>>, lists: seq<seq<Compound>>): (kept: seq<Compound>)
    ensures forall c :: c in kept <==> InEvery(c, lists) && exists j :: 0 <= j < |rest| && c in rest[j]
    decreases |rest|
  {
    if rest == [] then []
    else
      var tail := KeepInEvery(rest[1..], lists);
      assert forall j :: 1 <= j < |rest| ==> rest[j] == rest[1..][j - 1];
      FilterInEvery(rest[0], lists) + tail
  }

  function FilterInEvery(s: seq<Compound>, lists: seq<seq<Compound>>): (r: seq<Compound>)
    ensures forall c :: c in r <==> c in s && InEvery(c, lists)
    decreases |s|
  {
    if s == [] then []
    else
      assert s == [s[0]] + s[1..];
      (if InEvery(s[0], lists) then [s[0]] else []) + FilterInEvery(s[1..], lists)
  }

  /** `cpds_found_in_all_doses`: the compounds measured at each of the doses 1 to 6, each once. */
  method CpdsFoundInAllDoses(data: seq<Signature>) returns (cpdsFdInAll: seq<Compound>)
    ensures Distinct(cpdsFdInAll)
    ensures forall c :: c in cpdsFdInAll <==> forall dose :: 1 <= dose <= 6 ==> MeasuredAt(data, c, dose)
  {
    var cpdsFd: seq<seq<Compound>> := [];
    for num := 1 to 7
      invariant |cpdsFd| == num - 1
      invariant forall j :: 0 <= j < num - 1 ==> cpdsFd[j] == CompoundsAtDose(data, j + 1)
    {
      cpdsFd := cpdsFd + [CompoundsAtDose(data, num)];
    }
    var inAll := KeepInEvery(cpdsFd, cpdsFd);
    cpdsFdInAll := SetToSeq(set c | c in inAll);
    forall c
      ensures c in cpdsFdInAll <==> forall dose :: 1 <= dose <= 6 ==> MeasuredAt(data, c, dose)
    {
      if forall dose :: 1 <= dose <= 6 ==> MeasuredAt(data, c, dose) {
        assert forall j :: 0 <= j < 6 ==> c in cpdsFd[j];
        assert c in cpdsFd[0];
      }
      if c in inAll {
        forall dose | 1 <= dose <= 6
          ensures MeasuredAt(data, c, dose)
        {
          assert c in cpdsFd[dose - 1];
        }
      }
    }
  }

  /** `df_lvl5['moa'].unique()` as a set of labels. */
  function MoaLabels(data: seq<Signature>): (labels: set<Moa>)
    ensures forall moa :: moa in labels <==> exists c :: LabelledWith(data, c, moa)
  {
    var labels := set i | 0 <= i < |data| :: data[i].moa;
    assert forall i :: 0 <= i < |data| ==> LabelledWith(data, data[i].pertIname, data[i].moa);
    labels
  }

  /** The value the first comprehension of lines 160-162 gives `moa`: its compounds, each
      once in order of first appearance, kept only when found at all doses. */
  function EligibleCompounds(data: seq<Signature>, moa: Moa, cpdsFdInAll: seq<Compound>): (cpds: seq<Compound>)
    ensures Distinct(cpds)
    ensures forall c :: c in cpds <==> c in cpdsFdInAll && LabelledWith(data, c, moa)
  {
    Filter(Unique(NamesWhere(data, (s: Signature) => s.moa == moa)), cpdsFdInAll)
  }

  /** `all_moa_dict` (lines 160-163): every MOA mapped to its eligible compounds, MOAs left
      without any dropped. */
  function AllMoaDict(data: seq<Signature>, cpdsFdInAll: seq<Compound>): (allMoaDict: MoaDict)
    ensures forall moa :: moa in allMoaDict <==> exists c :: c in cpdsFdInAll && LabelledWith(data, c, moa)
    ensures forall moa :: moa in allMoaDict ==> Distinct(allMoaDict[moa])
    ensures forall moa, c :: moa in allMoaDict ==> (c in allMoaDict[moa] <==> c in cpdsFdInAll && LabelledWith(data, c, moa))
  {
    var withCpds := map moa | moa in MoaLabels(data) :: EligibleCompounds(data, moa, cpdsFdInAll);
    var r := map moa | moa in withCpds && withCpds[moa] != [] :: withCpds[moa];
    assert forall moa :: moa in r <==> exists c :: c in cpdsFdInAll && LabelledWith(data, c, moa) by {
      forall moa
        ensures moa in r <==> exists c :: c in cpdsFdInAll && LabelledWith(data, c, moa)
      {
        if moa in r {
          assert withCpds[moa][0] in withCpds[moa];
        }
        if c :| c in cpdsFdInAll && LabelledWith(data, c, moa) {
          var i :| 0 <= i < |data| && data[i].pertIname == c && data[i].moa == moa;
          assert moa in MoaLabels(data);
          assert c in withCpds[moa];
        }
      }
    }
    r
  }

  /** A cell of the MOA-compounds table: the text read from the file, or the list it was split into. */
  datatype Cell = Str(text: string) | List(items: seq<string>)

  /** One row of the MOA-compounds table: the `moa` and `moa_size` columns and the other cells in column order. */
  datatype MoaCpdsRow = MoaCpdsRow(moa: Moa, moaSize: int, cells: seq<Cell>)

  /** Iterating a cell as Python does: a list gives its items, a string its characters. */
  function CellItems(c: Cell): (items: seq<string>)
    ensures c.List? ==> items == c.items
    ensures c.Str? ==> |items| == |c.text| && forall i :: 0 <= i < |items| ==> |items[i]| == 1 && items[i][0] == c.text[i]
  {
    match c
    case List(items) => items
    case Str(text) => seq(|text|, i requires 0 <= i < |text| => [text[i]])
  }

  /** `cell.split(';')`, the lambda of `conv_cols_to_list`. A cell that is already a list has no
      `split` (Python raises); the method checks a column before converting it, so that case is
      never reached and the cell is left as it is. */
  function SplitCell(c: Cell): (split: Cell)
    ensures split.List?
    ensures c.Str? ==> Strings.Join(split.items, ';') == c.text
    ensures c.List? ==> split == c
  {
    match c
    case Str(text) =>
      Strings.JoinSplit(text, ';');
      List(Strings.Split(text, ';'))
    case List(_) => c
  }

  /** Column `col` of these rows holds only strings. */
  ghost predicate ColumnIsText(rows: seq<MoaCpdsRow>, col: int) {
    forall i :: 0 <= i < |rows| && 0 <= col < |rows[i].cells| ==> rows[i].cells[col].Str?
  }

  /** Column `col` is one of the `moa_cpds_*` columns. */
  predicate Converted(names: seq<string>, col: int) {
    0 <= col < |names| && Strings.StartsWith(names[col], "moa_cpds_")
  }

  /** A row once every `moa_cpds_*` cell before column `upTo` was split. */
  function SplitRow(row: MoaCpdsRow, names: seq<string>, upTo: int): MoaCpdsRow {
    row.(cells := seq(|row.cells|, col requires 0 <= col < |row.cells| =>
      if col < upTo && Converted(names, col) then SplitCell(row.cells[col]) else row.cells[col]))
  }

  /** The rows once every `moa_cpds_*` column before `upTo` was split. */
  function SplitColumns(rows: seq<MoaCpdsRow>, names: seq<string>, upTo: int): seq<MoaCpdsRow> {
    seq(|rows|, i requires 0 <= i < |rows| => SplitRow(rows[i], names, upTo))
  }

  lemma SplitRowNone(row: MoaCpdsRow, names: seq<string>)
    ensures SplitRow(row, names, 0) == row
  {
    assert SplitRow(row, names, 0).cells == row.cells;
  }

  /** Converting one more column changes that column of the row and nothing else. */
  lemma SplitRowStep(row: MoaCpdsRow, names: seq<string>, col: int)
    requires 0 <= col < |row.cells|
    ensures SplitRow(row, names, col).cells[col] == row.cells[col]
    ensures SplitRow(row, names, col + 1) ==
      if Converted(names, col) then
        var done := SplitRow(row, names, col); done.(cells := done.cells[col := SplitCell(row.cells[col])])
      else SplitRow(row, names, col)
  {
    var done := SplitRow(row, names, col);
    var next := SplitRow(row, names, col + 1);
    if Converted(names, col) {
      assert next.cells == done.cells[col := SplitCell(row.cells[col])];
    } else {
      assert next.cells == done.cells;
    }
  }

  /** The MOA-compounds dataframe, which `conv_cols_to_list` changes in place. */
  class MoaCpdsFrame {
    var names: seq<string>
    var rows: seq<MoaCpdsRow>

    /** Every row has one cell per column name. */
    ghost predicate Valid()
      reads this
    {
      forall i :: 0 <= i < |rows| ==> |rows[i].cells| == |names|
    }

    constructor (names: seq<string>, rows: seq<MoaCpdsRow>)
      requires forall i :: 0 <= i < |rows| ==> |rows[i].cells| == |names|
      ensures Valid() && this.names == names && this.rows == rows
    {
      this.names := names;
      this.rows := rows;
    }

    /** `conv_cols_to_list`: splits each `moa_cpds_*` column on ';', column by column. A column
        holding a non-string makes `str.split` raise; the columns before it stay converted and
        that column and the ones after it stay as they were. */
    method ConvColsToList() returns (ok: bool)
      requires Valid()
      modifies this
      ensures Valid() && names == old(names)
      ensures ok <==> forall col :: Converted(names, col) ==> ColumnIsText(old(rows), col)
      ensures ok ==> rows == SplitColumns(old(rows), names, |names|)
      ensures !ok ==> exists col :: Converted(names, col) && !ColumnIsText(old(rows), col)
                                 && (forall c :: c < col && Converted(names, c) ==> ColumnIsText(old(rows), c))
                                 && rows == SplitColumns(old(rows), names, col)
    {
      ghost var original := rows;
      forall i | 0 <= i < |rows|
        ensures SplitColumns(original, names, 0)[i] == rows[i]
      {
        SplitRowNone(rows[i], names);
      }
      for col := 0 to |names|
        invariant names == old(names) && |rows| == |original|
        invariant forall c :: c < col && Converted(names, c) ==> ColumnIsText(original, c)
        invariant rows == SplitColumns(original, names, col)
        invariant Valid()
      {
        forall i | 0 <= i < |rows|
          ensures rows[i].cells[col] == original[i].cells[col]
        {
          SplitRowStep(original[i], names, col);
        }
        if Converted(names, col) {
          if exists i :: 0 <= i < |rows| && !rows[i].cells[col].Str? {
            return false;
          }
          var current := rows;
          rows := seq(|current|, i requires 0 <= i < |current| =>
            current[i].(cells := current[i].cells[col := SplitCell(current[i].cells[col])]));
        }
        forall i | 0 <= i < |rows|
          ensures rows[i] == SplitColumns(original, names, col + 1)[i]
        {
          SplitRowStep(original[i], names, col);
        }
      }
      return true;
    }
  }

  /** Compound `cpd` appears in some cell of some row of MOA size `size`. */
  ghost predicate InSizeClass(rows: seq<MoaCpdsRow>, size: int, cpd: Compound) {
    exists i, col :: 0 <= i < |rows| && rows[i].moaSize == size && 0 <= col < |rows[i].cells| && cpd in CellItems(rows[i].cells[col])
  }

  /** The items of every cell, one after the other. */
  function CellsItems(cells: seq<Cell>): (items: seq<string>)
    ensures forall c :: c in items <==> exists col :: 0 <= col < |cells| && c in CellItems(cells[col])
    decreases |cells|
  {
    if cells == [] then []
    else
      var tail := CellsItems(cells[1..]);
      assert forall col :: 1 <= col < |cells| ==> cells[col] == cells[1..][col - 1];
      CellItems(cells[0]) + tail
  }

  /** The comprehension at line 179: every item of every cell of the rows of size `size`. */
  function SizeClassItems(rows: seq<MoaCpdsRow>, size: int): (items: seq<Compound>)
    ensures forall c :: c in items <==> InSizeClass(rows, size, c)
    decreases |rows|
  {
    if rows == [] then []
    else
      var tail := SizeClassItems(rows[1..], size);
      assert forall i :: 1 <= i < |rows| ==> rows[i] == rows[1..][i - 1];
      (if rows[0].moaSize == size then CellsItems(rows[0].cells) else []) + tail
  }

  /** `generate_moa_size_dict`: every MOA size of the table mapped to the compounds, each once,
      of the MOAs of that size. */
  method GenerateMoaSizeDict(rows: seq<MoaCpdsRow>) returns (moaSizeDict: map<int, seq<Compound>>)
    ensures moaSizeDict.Keys == set i | 0 <= i < |rows| :: rows[i].moaSize
    ensures forall size :: size in moaSizeDict ==> Distinct(moaSizeDict[size])
    ensures forall size, c :: size in moaSizeDict ==> (c in moaSizeDict[size] <==> InSizeClass(rows, size, c))
  {
    var sizes := Unique(seq(|rows|, i requires 0 <= i < |rows| => rows[i].moaSize));
    moaSizeDict := map[];
    for k := 0 to |sizes|
      invariant moaSizeDict.Keys == set j | 0 <= j < k :: sizes[j]
      invariant forall size :: size in moaSizeDict ==> Distinct(moaSizeDict[size])
      invariant forall size, c :: size in moaSizeDict ==> (c in moaSizeDict[size] <==> InSizeClass(rows, size, c))
    {
      var size := sizes[k];
      var items := SizeClassItems(rows, size);
      var sizeDfVals := SetToSeq(set c | c in items);
      moaSizeDict := moaSizeDict[size := sizeDfVals];
    }
    forall size
      ensures size in moaSizeDict <==> size in set i | 0 <= i < |rows| :: rows[i].moaSize
    {
      if size in moaSizeDict {
        var j :| 0 <= j < |sizes| && sizes[j] == size;
        assert sizes[j] in sizes;
      }
      if size in set i | 0 <= i < |rows| :: rows[i].moaSize {
        var i :| 0 <= i < |rows| && rows[i].moaSize == size;
        var column := seq(|rows|, i requires 0 <= i < |rows| => rows[i].moaSize);
        assert column[i] == size;
        assert size in sizes;
      }
    }
  }
}
