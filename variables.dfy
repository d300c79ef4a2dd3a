/**
 * The variable metadata pages: main.py, example.py and wip_mariia.py each
 * walk the dataset's variable table and sort every variable name into a
 * numerical list (role 'Feature') or a categorical list (every other role).
 * main.py and example.py then join the target table onto the feature table;
 * wip_mariia.py instead writes the target's NSP column into the feature
 * table in place and lays the numerical variables' density plots out over
 * two page columns.
 *
 * Table cells are numbers the data library holds; they are given as reals.
 */
module Variables {
  import opened Common
  import opened Ranking

  /** One row of the variable metadata: a column name and its role ('Feature', 'Target', 'ID', ...). */
  datatype Variable = Variable(name: string, role: string)

  /** The role test of the partition loop. */
  predicate IsFeature(v: Variable)
  {
    v.role == "Feature"
  }

  /** The metadata's `name` column. */
  function Names(vs: seq<Variable>): (names: seq<string>)
    ensures |names| == |vs|
    ensures forall i :: 0 <= i < |vs| ==> names[i] == vs[i].name
  {
    seq(|vs|, i requires 0 <= i < |vs| => vs[i].name)
  }

  /**
   * The names the loop appends to one of its lists after the rows `vs`: the
   * numerical list when `feature` is true, the categorical list otherwise.
   */
  function Selected(vs: seq<Variable>, feature: bool): (names: seq<string>)
    ensures |names| <= |vs|
    decreases |vs|
  {
    if vs == [] then []
    else
      var last := vs[|vs| - 1];
      Selected(vs[..|vs| - 1], feature) + (if IsFeature(last) == feature then [last.name] else [])
  }

  /** Positions listed in strictly increasing order. */
  predicate Increasing(p: seq<nat>)
  {
    forall a, b :: 0 <= a < b < |p| ==> p[a] < p[b]
  }

  /** Every listed row is in range and has the role that `feature` selects. */
  predicate RolesFit(vs: seq<Variable>, feature: bool, p: seq<nat>)
  {
    forall k :: 0 <= k < |p| ==> p[k] < |vs| && IsFeature(vs[p[k]]) == feature
  }

  /** Every row with the role that `feature` selects is listed. */
  predicate Covers(vs: seq<Variable>, feature: bool, p: seq<nat>)
  {
    forall i :: 0 <= i < |vs| && IsFeature(vs[i]) == feature ==> i in p
  }

  /**
   * `p` lists, in increasing order, exactly the rows of `vs` whose names go
   * to the list chosen by `feature`.
   */
  predicate ListsRows(vs: seq<Variable>, feature: bool, p: seq<nat>)
  {
    InRange(p, |vs|) && Increasing(p) && RolesFit(vs, feature, p) && Covers(vs, feature, p)
  }

  /** The last row's position is above every listed earlier row. */
  lemma IncreasingStep(front: seq<nat>, n: nat)
    requires Increasing(front) && InRange(front, n)
    ensures Increasing(front + [n]) && InRange(front + [n], n + 1)
  {
    var p := front + [n];
    forall a, b | 0 <= a < b < |p| ensures p[a] < p[b] {
      if b == |front| {
        assert p[a] == front[a];
      }
    }
  }

  /** Listed earlier rows keep their roles in the longer metadata. */
  lemma RolesFitStep(vs: seq<Variable>, feature: bool, front: seq<nat>)
    requires vs != [] && RolesFit(vs[..|vs| - 1], feature, front)
    ensures RolesFit(vs, feature, front)
    ensures IsFeature(vs[|vs| - 1]) == feature ==> RolesFit(vs, feature, front + [|vs| - 1])
  {
    var n := |vs| - 1;
    forall k | 0 <= k < |front| ensures front[k] < |vs| && IsFeature(vs[front[k]]) == feature {
      assert vs[..n][front[k]] == vs[front[k]];
    }
  }

  /** Every earlier row that fits is still listed, and the last row is listed if it fits. */
  lemma CoversStep(vs: seq<Variable>, feature: bool, front: seq<nat>)
    requires vs != [] && Covers(vs[..|vs| - 1], feature, front)
    ensures Covers(vs, feature, if IsFeature(vs[|vs| - 1]) == feature then front + [|vs| - 1] else front)
  {
    var n := |vs| - 1;
    var p := if IsFeature(vs[n]) == feature then front + [n] else front;
    forall i | 0 <= i < |vs| && IsFeature(vs[i]) == feature ensures i in p {
      if i < n {
        assert vs[..n][i] == vs[i];
        assert i in front;
      } else {
        assert p[|p| - 1] == n;
      }
    }
  }

  /** The rows of `vs`, in metadata order, whose names go to the list chosen by `feature`. */
  function Positions(vs: seq<Variable>, feature: bool): (p: seq<nat>)
    ensures ListsRows(vs, feature, p)
    decreases |vs|
  {
    if vs == [] then []
    else
      var n := |vs| - 1;
      var front := Positions(vs[..n], feature);
      IncreasingStep(front, n);
      RolesFitStep(vs, feature, front);
      CoversStep(vs, feature, front);
      if IsFeature(vs[n]) == feature then front + [n] else front
  }

  /** Picking by positions below `n` reads the same from a sequence as from its first `n` entries. */
  lemma ApplyToPrefix(p: seq<nat>, names: seq<string>, n: nat)
    requires n <= |names| && InRange(p, n)
    ensures InRange(p, |names[..n]|) && InRange(p, |names|)
    ensures Apply(p, names[..n]) == Apply(p, names)
  {
  }

  /** Picking one more position appends the entry at that position. */
  lemma ApplyAppend(p: seq<nat>, names: seq<string>, n: nat)
    requires n < |names| && InRange(p, |names|)
    ensures InRange(p + [n], |names|)
    ensures Apply(p + [n], names) == Apply(p, names) + [names[n]]
  {
  }

  /**
   * Each list holds exactly the names of the rows whose role puts them there,
   * in the order of the metadata: list entry k is the name of the k-th such row.
   */
  lemma {:induction false} SelectedInOrder(vs: seq<Variable>, feature: bool)
    ensures |Selected(vs, feature)| == |Positions(vs, feature)|
    ensures Selected(vs, feature) == Apply(Positions(vs, feature), Names(vs))
    decreases |vs|
  {
    if vs != [] {
      var n := |vs| - 1;
      var front := Positions(vs[..n], feature);
      var names := Names(vs);
      SelectedInOrder(vs[..n], feature);
      assert Names(vs[..n]) == names[..n];
      ApplyToPrefix(front, names, n);
      assert Selected(vs[..n], feature) == Apply(front, names);
      if IsFeature(vs[n]) == feature {
        ApplyAppend(front, names, n);
        assert Positions(vs, feature) == front + [n];
      } else {
        assert Positions(vs, feature) == front;
      }
    }
  }

  /** A name is in a list exactly when some row with that name has the role that list takes. */
  lemma SelectedMembership(vs: seq<Variable>, feature: bool, name: string)
    ensures name in Selected(vs, feature) <==> exists i :: 0 <= i < |vs| && vs[i].name == name && IsFeature(vs[i]) == feature
  {
    SelectedInOrder(vs, feature);
    var p := Positions(vs, feature);
    var s := Selected(vs, feature);
    if name in s {
      var k :| 0 <= k < |s| && s[k] == name;
      assert vs[p[k]].name == name;
    }
    if i :| 0 <= i < |vs| && vs[i].name == name && IsFeature(vs[i]) == feature {
      var k :| 0 <= k < |p| && p[k] == i;
      assert s[k] == name;
    }
  }

  /** The names of one more row are the names so far followed by its name. */
  lemma NamesAppend(vs: seq<Variable>)
    requires vs != []
    ensures Names(vs) == Names(vs[..|vs| - 1]) + [vs[|vs| - 1].name]
  {
    var n := |vs| - 1;
    var all, grown := Names(vs), Names(vs[..n]) + [vs[n].name];
    forall i | 0 <= i < |all| ensures all[i] == grown[i] {
      if i < n {
        assert grown[i] == Names(vs[..n])[i] == vs[..n][i].name;
      }
    }
  }

  /** Appending one name to either list keeps the two lists together equal to all names. */
  lemma PartitionStep(numerical: seq<string>, categorical: seq<string>, names: seq<string>, name: string, toNumerical: bool)
    requires multiset(numerical) + multiset(categorical) == multiset(names)
    ensures toNumerical ==> multiset(numerical + [name]) + multiset(categorical) == multiset(names + [name])
    ensures !toNumerical ==> multiset(numerical) + multiset(categorical + [name]) == multiset(names + [name])
  {
  }

  /** Every row lands in exactly one list: together the two lists hold each name as often as the metadata does. */
  lemma {:induction false} PartitionIsExact(vs: seq<Variable>)
    ensures multiset(Selected(vs, true)) + multiset(Selected(vs, false)) == multiset(Names(vs))
    decreases |vs|
  {
    if vs != [] {
      var n := |vs| - 1;
      var last := vs[n];
      PartitionIsExact(vs[..n]);
      NamesAppend(vs);
      PartitionStep(Selected(vs[..n], true), Selected(vs[..n], false), Names(vs[..n]), last.name, IsFeature(last));
    }
  }

  /** So the two lists are together exactly as long as the metadata. */
  lemma PartitionSizes(vs: seq<Variable>)
    ensures |Selected(vs, true)| + |Selected(vs, false)| == |vs|
  {
    PartitionIsExact(vs);
    assert |multiset(Names(vs))| == |Names(vs)|;
  }

  /**
   * The loop `for row_nr, variable_type in enumerate(variables['role'])`,
   * appending the row's name to the numerical list for role 'Feature' and to
   * the categorical list otherwise.
   */
  method PartitionRoles(variables: seq<Variable>) returns (numerical: seq<string>, categorical: seq<string>)
    ensures numerical == Selected(variables, true)
    ensures categorical == Selected(variables, false)
  {
    numerical, categorical := [], [];
    for row := 0 to |variables|
      invariant numerical == Selected(variables[..row], true)
      invariant categorical == Selected(variables[..row], false)
    {
      assert variables[..row + 1][..row] == variables[..row];
      if variables[row].role == "Feature" {
        numerical := numerical + [variables[row].name];
      } else {
        categorical := categorical + [variables[row].name];
      }
    }
    assert variables[..|variables|] == variables;
  }

  /** A data frame: its column names in order, and each column's values. */
  datatype Table = Table(columns: seq<string>, cells: map<string, seq<real>>)

  /** Column names are unique and each names exactly one stored column. */
  predicate WellFormed(t: Table)
  {
    Distinct(t.columns) && t.cells.Keys == set c | c in t.columns
  }

  datatype JoinError = OverlappingColumns

  /**
   * `X.join(y)` for two frames of the same dataset, hence on the same index:
   * pandas refuses columns that occur in both frames (no suffix is given);
   * otherwise the joined frame has the left columns, then the right ones.
   */
  function Join(left: Table, right: Table): (r: Result<Table, JoinError>)
    requires WellFormed(left) && WellFormed(right)
    ensures r.Err? <==> exists c :: c in left.columns && c in right.columns
    ensures r.Ok? ==> WellFormed(r.value)
    ensures r.Ok? ==> r.value.columns == left.columns + right.columns
    ensures r.Ok? ==> forall c :: c in left.cells ==> c in r.value.cells && r.value.cells[c] == left.cells[c]
    ensures r.Ok? ==> forall c :: c in right.cells ==> c in r.value.cells && r.value.cells[c] == right.cells[c]
  {
    if exists c :: c in left.columns && c in right.columns then Err(OverlappingColumns)
    else
      var columns := left.columns + right.columns;
      assert Distinct(columns) by {
        forall i, j | 0 <= i < j < |columns| ensures columns[i] != columns[j] {
          if j >= |left.columns| && i < |left.columns| {
            assert columns[j] in right.columns;
          }
        }
      }
      Ok(Table(columns, left.cells + right.cells))
  }

  /**
   * The grouped box plot of main.py and example.py reads a numerical
   * variable and a categorical variable from the joined frame: both are
   * there when the first is a feature column and the second a target column.
   */
  lemma BoxPlotColumnsAfterJoin(features: Table, targets: Table, numerical: string, categorical: string)
    requires WellFormed(features) && WellFormed(targets)
    requires Join(features, targets).Ok?
    requires numerical in features.columns && categorical in targets.columns
    ensures var joined := Join(features, targets).value;
            numerical in joined.columns && categorical in joined.columns &&
            joined.cells[numerical] == features.cells[numerical] &&
            joined.cells[categorical] == targets.cells[categorical]
  {
    var joined := Join(features, targets).value;
    var i :| 0 <= i < |features.columns| && features.columns[i] == numerical;
    assert joined.columns[i] == numerical;
    var j :| 0 <= j < |targets.columns| && targets.columns[j] == categorical;
    assert joined.columns[|features.columns| + j] == categorical;
  }

  /** The feature frame of wip_mariia.py, which the page changes in place. */
  class Frame {
    var columns: seq<string>
    var cells: map<string, seq<real>>

    predicate Valid()
      reads this
    {
      WellFormed(Table(columns, cells))
    }

    constructor (t: Table)
      requires WellFormed(t)
      ensures Valid() && columns == t.columns && cells == t.cells
    {
      columns := t.columns;
      cells := t.cells;
    }

    /**
     * `frame[name] = values`: an existing column is overwritten where it
     * stands, a new one is appended after the others.
     */
    method SetColumn(name: string, values: seq<real>)
      requires Valid()
      modifies this
      ensures Valid()
      ensures columns == if name in old(columns) then old(columns) else old(columns) + [name]
      ensures cells == old(cells)[name := values]
    {
      if name !in columns {
        assert Distinct(columns + [name]) by {
          var cs := columns + [name];
          forall i, j | 0 <= i < j < |cs| ensures cs[i] != cs[j] {
            if j == |columns| {
              assert cs[i] in columns;
            }
          }
        }
        columns := columns + [name];
      }
      cells := cells[name := values];
    }
  }

  /** How many of the placed plots go to page column `col`. */
  function PlotsInColumn(placements: seq<(string, nat)>, col: nat): (count: nat)
    ensures count <= |placements|
    decreases |placements|
  {
    if placements == [] then 0
    else
      var n := |placements| - 1;
      PlotsInColumn(placements[..n], col) + (if placements[n].1 == col then 1 else 0)
  }

  /** The count is zero exactly when no plot goes to `col`, and all of them exactly when every plot does. */
  lemma {:induction false} PlotsInColumnCounts(placements: seq<(string, nat)>, col: nat)
    ensures PlotsInColumn(placements, col) == 0 <==> forall i :: 0 <= i < |placements| ==> placements[i].1 != col
    ensures PlotsInColumn(placements, col) == |placements| <==> forall i :: 0 <= i < |placements| ==> placements[i].1 == col
    decreases |placements|
  {
    if placements != [] {
      var n := |placements| - 1;
      var front := placements[..n];
      PlotsInColumnCounts(front, col);
      assert forall i :: 0 <= i < n ==> front[i] == placements[i];
    }
  }

  /**
   * When plot i goes to page column i % 2, the left column takes ceil(n / 2)
   * plots and the right column the other floor(n / 2).
   */
  lemma {:induction false} ColumnsBalanced(placements: seq<(string, nat)>)
    requires forall i :: 0 <= i < |placements| ==> placements[i].1 == i % 2
    ensures PlotsInColumn(placements, 0) == (|placements| + 1) / 2
    ensures PlotsInColumn(placements, 1) == |placements| / 2
    decreases |placements|
  {
    if placements != [] {
      var n := |placements| - 1;
      var front := placements[..n];
      assert forall i :: 0 <= i < n ==> front[i].1 == i % 2;
      ColumnsBalanced(front);
      assert placements[n].1 == n % 2;
      assert PlotsInColumn(placements, 0) == PlotsInColumn(front, 0) + (if n % 2 == 0 then 1 else 0);
      assert PlotsInColumn(placements, 1) == PlotsInColumn(front, 1) + (if n % 2 == 1 then 1 else 0);
    }
  }

  /**
   * The page column each density plot goes to, by its place in the numerical
   * list; so the two columns hold ceil(n / 2) and floor(n / 2) plots.
   */
  method PlaceDensityPlots(numerical: seq<string>) returns (placements: seq<(string, nat)>)
    ensures |placements| == |numerical|
    ensures forall i :: 0 <= i < |numerical| ==> placements[i] == (numerical[i], i % 2)
    ensures PlotsInColumn(placements, 0) == (|numerical| + 1) / 2
    ensures PlotsInColumn(placements, 1) == |numerical| / 2
  {
    placements := [];
    for index := 0 to |numerical|
      invariant |placements| == index
      invariant forall i :: 0 <= i < index ==> placements[i] == (numerical[i], i % 2)
    {
      placements := placements + [(numerical[index], index % 2)];
    }
    ColumnsBalanced(placements);
  }

  /** What wip_mariia.py shows after the feature frame has gained its NSP column. */
  datatype WipPage = WipPage(
    categorical: seq<string>,
    correlationColumns: Option<seq<string>>,
    densityPlots: seq<(string, nat)>)

  /**
   * wip_mariia.py's `main`: partition the variables, copy the target's NSP
   * column into the feature frame, compute the correlation over all of the
   * frame's columns only when 'Yes' is chosen, and place one density plot per
   * numerical variable.
   */
  method ShowWipPage(variables: seq<Variable>, features: Frame, targets: Table, showCorrelation: string)
    returns (page: WipPage)
    requires features.Valid() && "NSP" in targets.cells
    modifies features
    ensures features.Valid()
    ensures features.columns == if "NSP" in old(features.columns) then old(features.columns) else old(features.columns) + ["NSP"]
    ensures features.cells == old(features.cells)["NSP" := targets.cells["NSP"]]
    ensures page.categorical == Selected(variables, false)
    ensures page.correlationColumns.Some? <==> showCorrelation == "Yes"
    ensures page.correlationColumns.Some? ==> page.correlationColumns.value == features.columns
    ensures |page.densityPlots| == |Selected(variables, true)|
    ensures forall i :: 0 <= i < |page.densityPlots| ==> page.densityPlots[i] == (Selected(variables, true)[i], i % 2)
    ensures PlotsInColumn(page.densityPlots, 0) == (|Selected(variables, true)| + 1) / 2
    ensures PlotsInColumn(page.densityPlots, 1) == |Selected(variables, true)| / 2
  {
    var numerical, categorical := PartitionRoles(variables);
    features.SetColumn("NSP", targets.cells["NSP"]);
    var correlation := if showCorrelation == "Yes" then Some(features.columns) else None;
    var plots := PlaceDensityPlots(numerical);
    page := WipPage(categorical, correlation, plots);
  }

  /**
   * NSP joins the feature frame, and so the correlation, but gets a density
   * plot of its own only if the metadata lists a row named NSP with role
   * 'Feature'.
   */
  lemma NspPlottedOnlyAsFeature(variables: seq<Variable>)
    ensures "NSP" in Selected(variables, true) <==>
            exists i :: 0 <= i < |variables| && variables[i].name == "NSP" && IsFeature(variables[i])
  {
    SelectedMembership(variables, true, "NSP");
  }
}
