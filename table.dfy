/** The sorting logic of the shared table component
    (ui/tailwind-project/src/components/common/Table.js). */
module SortTable {
  import opened Wrappers

  datatype Direction = Ascending | Descending

  /** The `sortConfig` prop: the column sorted by and its direction. */
  datatype SortConfig = SortConfig(key: string, direction: Direction)

  datatype Icon = SortNeutral | SortUp | SortDown

  /** `handleSort`: what is handed to `onSort` when the header of column `key` is
      clicked, or `None` when the table is not sortable or has no `onSort`. The current
      column sorted ascending flips to descending; anything else sorts ascending. */
  function HandleSort(key: string, sortable: bool, hasOnSort: bool, config: Option<SortConfig>): Option<SortConfig>
  {
    if !sortable || !hasOnSort then None
    else
      var direction :=
        if config.Some? && config.value.key == key && config.value.direction == Ascending then Descending
        else Ascending;
      Some(SortConfig(key, direction))
  }

  /** Nothing is emitted exactly when sorting is off; otherwise the clicked column is
      emitted, descending exactly when it was the current column sorted ascending. */
  lemma HandleSortSpec(key: string, sortable: bool, hasOnSort: bool, config: Option<SortConfig>)
    ensures HandleSort(key, sortable, hasOnSort, config).None? <==> !sortable || !hasOnSort
    ensures var r := HandleSort(key, sortable, hasOnSort, config);
      r.Some? ==> r.value.key == key && (r.value.direction == Descending <==> config == Some(SortConfig(key, Ascending)))
  {
  }

  /** The configuration after `n` clicks on the header of `key`, the parent feeding each
      emitted configuration back as the `sortConfig` prop. */
  function Clicks(config: Option<SortConfig>, key: string, n: nat): Option<SortConfig>
    decreases n
  {
    if n == 0 then config else Clicks(HandleSort(key, true, true, config), key, n - 1)
  }

  /** Clicking one header keeps that column and toggles the direction. */
  lemma ClickToggles(key: string, direction: Direction)
    ensures HandleSort(key, true, true, Some(SortConfig(key, direction)))
      == Some(SortConfig(key, if direction == Ascending then Descending else Ascending))
  {
  }

  /** Repeated clicks on one header alternate between the two directions: after the
      first click, every second click gives the same configuration again, and two
      consecutive clicks give opposite directions. */
  lemma {:induction false} ClicksAlternate(config: Option<SortConfig>, key: string, n: nat)
    requires n >= 1
    ensures Clicks(config, key, n).Some? && Clicks(config, key, n).value.key == key
    ensures Clicks(config, key, n + 1).Some?
    ensures Clicks(config, key, n + 2) == Clicks(config, key, n)
    ensures Clicks(config, key, n + 1).value.direction != Clicks(config, key, n).value.direction
    decreases n
  {
    var c1 := HandleSort(key, true, true, config);
    if n == 1 {
      var d := c1.value.direction;
      var flipped := if d == Ascending then Descending else Ascending;
      ClickToggles(key, d);
      ClickToggles(key, flipped);
      var c2 := HandleSort(key, true, true, c1);
      var c3 := HandleSort(key, true, true, c2);
      assert Clicks(config, key, 1) == Clicks(c1, key, 0) == c1;
      assert Clicks(config, key, 2) == Clicks(c1, key, 1) == Clicks(c2, key, 0) == c2;
      assert Clicks(config, key, 3) == Clicks(c1, key, 2) == Clicks(c2, key, 1) == Clicks(c3, key, 0) == c3;
    } else {
      ClicksAlternate(c1, key, n - 1);
    }
  }

  /** `getSortIcon`: no icon when the table is not sortable; up or down on the current
      column by its direction; the neutral icon on every other column. */
  function GetSortIcon(key: string, sortable: bool, config: Option<SortConfig>): (r: Option<Icon>)
    ensures r.None? <==> !sortable
    ensures r.Some? && config.Some? && config.value.key == key ==>
      (r.value == SortUp <==> config.value.direction == Ascending)
    ensures sortable && config.Some? && config.value.key == key && config.value.direction == Descending ==>
      r == Some(SortDown)
    ensures sortable && (config.None? || config.value.key != key) ==> r == Some(SortNeutral)
  {
    if !sortable then None
    else if config.Some? && config.value.key == key then
      Some(if config.value.direction == Ascending then SortUp else SortDown)
    else Some(SortNeutral)
  }

  /** After a click, the clicked column shows the arrow of the emitted direction and every
      other column shows the neutral icon. */
  lemma IconAfterClick(key: string, other: string, config: Option<SortConfig>)
    requires other != key
    ensures var next := HandleSort(key, true, true, config);
      GetSortIcon(key, true, next) == Some(if next.value.direction == Ascending then SortUp else SortDown)
      && GetSortIcon(other, true, next) == Some(SortNeutral)
  {
  }

  /** A header cell: a column's title or the trailing "Actions" cell. */
  datatype HeaderCell = ColumnHeader(title: string) | ActionsHeader

  /** The header row: one cell per column, then "Actions" when there are actions. */
  function HeaderRow(titles: seq<string>, hasActions: bool): (r: seq<HeaderCell>)
    ensures |r| == |titles| + (if hasActions then 1 else 0)
    ensures forall i :: 0 <= i < |titles| ==> r[i] == ColumnHeader(titles[i])
    ensures hasActions ==> r[|titles|] == ActionsHeader
  {
    seq(|titles|, i requires 0 <= i < |titles| => ColumnHeader(titles[i])) + (if hasActions then [ActionsHeader] else [])
  }

  /** The `colSpan` of the row shown for empty data. */
  function EmptyRowColSpan(columnCount: nat, hasActions: bool): nat
  {
    columnCount + (if hasActions then 1 else 0)
  }

  /** The empty-data row spans exactly the header row. */
  lemma EmptyRowSpansHeader(titles: seq<string>, hasActions: bool)
    ensures EmptyRowColSpan(|titles|, hasActions) == |HeaderRow(titles, hasActions)|
    ensures EmptyRowColSpan(|titles|, hasActions) >= |titles|
  {
  }
}
