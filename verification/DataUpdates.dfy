/**
 How the data grid writes cell updates back: they are grouped by row, and every row they touch is copied once.

 Rows are objects; `ref` is an object's identity, by which the data is searched for the row a display row shows.
 */
module DataUpdates {
  import opened Options

  datatype Value = Value(id: nat)
  type Fields = map<string, Value>

  datatype Item = Item(ref: nat, fields: Fields)

  /** `rowIndex` counts display rows. */
  datatype Update = Update(rowIndex: int, columnId: string, value: Value)

  /** A row of the new data: the same object as before, or a changed copy; a missing row stays missing. */
  datatype NewRow = Missing | Same(item: Item) | Copied(fields: Fields)

  /** The place of the first row that is this object. */
  function IndexOf(data: seq<Option<Item>>, ref: nat, n: nat): (i: Option<nat>)
    requires n <= |data|
    ensures i.Some? ==> i.value < n && data[i.value].Some? && data[i.value].value.ref == ref
    ensures i == None ==> forall j :: 0 <= j < n && data[j].Some? ==> data[j].value.ref != ref
  {
    if n == 0 then None
    else if IndexOf(data, ref, n - 1).Some? then IndexOf(data, ref, n - 1)
    else if data[n - 1].Some? && data[n - 1].value.ref == ref then Some(n - 1)
    else None
  }

  /** The row an update is for; None when it is dropped because nothing is displayed there. */
  function Target(data: seq<Option<Item>>, display: Option<seq<nat>>, update: Update): Option<int> {
    if display == None then Some(update.rowIndex)
    else if !(0 <= update.rowIndex < |display.value|) then None
    else
      var original := IndexOf(data, display.value[update.rowIndex], |data|);
      Some(if original.Some? then original.value else update.rowIndex)
  }

  /** The first `n` updates that are for row `i`, in their order. */
  function Group(
    data: seq<Option<Item>>, display: Option<seq<nat>>, updates: seq<Update>, n: nat, i: int): seq<(string, Value)>
    requires n <= |updates|
  {
    if n == 0 then []
    else
      var before, last := Group(data, display, updates, n - 1, i), updates[n - 1];
      if Target(data, display, last) == Some(i) then before + [(last.columnId, last.value)] else before
  }

  function Write(fields: Fields, writes: seq<(string, Value)>, n: nat): Fields
    requires n <= |writes|
  {
    if n == 0 then fields else Write(fields, writes, n - 1)[writes[n - 1].0 := writes[n - 1].1]
  }

  /** What row `i` becomes. */
  function UpdatedRow(data: seq<Option<Item>>, display: Option<seq<nat>>, updates: seq<Update>, i: nat): NewRow
    requires i < |data|
  {
    var group := Group(data, display, updates, |updates|, i);
    if data[i] == None then Missing
    else if group == [] then Same(data[i].value)
    else Copied(Write(data[i].value.fields, group, |group|))
  }

  type Groups = map<int, seq<(string, Value)>>

  function Grouped(groups: Groups, i: int): seq<(string, Value)> {
    if i in groups then groups[i] else []
  }

  /** The first loop. */
  method GroupByRow(data: seq<Option<Item>>, display: Option<seq<nat>>, updates: seq<Update>) returns (groups: Groups)
    ensures forall i :: Grouped(groups, i) == Group(data, display, updates, |updates|, i)
    ensures forall i :: i in groups ==> groups[i] != []
  {
    groups := map[];
    for n := 0 to |updates|
      invariant forall i :: Grouped(groups, i) == Group(data, display, updates, n, i)
      invariant forall i :: i in groups ==> groups[i] != []
    {
      var update := updates[n];
      var target := Target(data, display, update);
      if target.Some? {
        var existing := if target.value in groups then groups[target.value] else [];
        groups := groups[target.value := existing + [(update.columnId, update.value)]];
      }
    }
  }

  /** The new data; None when the grid leaves its owner alone. */
  method OnDataUpdate(data: seq<Option<Item>>, display: Option<seq<nat>>, updates: seq<Update>, readOnly: bool)
    returns (newData: Option<seq<NewRow>>)
    ensures newData == None <==> readOnly || updates == []
    ensures newData.Some? ==>
      && |newData.value| == |data|
      && forall i :: 0 <= i < |data| ==> newData.value[i] == UpdatedRow(data, display, updates, i)
  {
    if readOnly || updates == [] {
      return None;
    }
    var groups := GroupByRow(data, display, updates);
    var rows: seq<NewRow> := [];
    for i := 0 to |data|
      invariant |rows| == i
      invariant forall k :: 0 <= k < i ==> rows[k] == UpdatedRow(data, display, updates, k)
    {
      assert Grouped(groups, i) == Group(data, display, updates, |updates|, i);
      if data[i] == None {
        rows := rows + [Missing];
      } else if i in groups {
        var group := groups[i];
        var updated := data[i].value.fields;
        for k := 0 to |group|
          invariant updated == Write(data[i].value.fields, group, k)
        {
          updated := updated[group[k].0 := group[k].1];
        }
        rows := rows + [Copied(updated)];
      } else {
        rows := rows + [Same(data[i].value)];
      }
    }
    newData := Some(rows);
  }

  // ----- what the updates mean -----

  function FieldsOf(row: NewRow): Option<Fields> {
    match row
    case Missing => None
    case Same(item) => Some(item.fields)
    case Copied(fields) => Some(fields)
  }

  function Contents(data: seq<Option<Item>>): seq<Option<Fields>> {
    seq(|data|, i requires 0 <= i < |data| => if data[i].Some? then Some(data[i].value.fields) else None)
  }

  /** One update, applied on its own to the rows as they are. */
  function ApplyOne(rows: seq<Option<Fields>>, target: Option<int>, update: Update): (r: seq<Option<Fields>>)
    ensures |r| == |rows|
  {
    if target.Some? && 0 <= target.value < |rows| && rows[target.value].Some?
    then rows[target.value := Some(rows[target.value].value[update.columnId := update.value])]
    else rows
  }

  /** The first `n` updates, applied one after the other. */
  function ApplyAll(
    data: seq<Option<Item>>, display: Option<seq<nat>>, updates: seq<Update>, n: nat): (r: seq<Option<Fields>>)
    requires n <= |updates|
    ensures |r| == |data|
  {
    if n == 0 then Contents(data)
    else ApplyOne(ApplyAll(data, display, updates, n - 1), Target(data, display, updates[n - 1]), updates[n - 1])
  }

  lemma {:induction false} WriteOneMore(fields: Fields, writes: seq<(string, Value)>, last: (string, Value), n: nat)
    requires n <= |writes|
    ensures Write(fields, writes + [last], n) == Write(fields, writes, n)
  {
    if n > 0 {
      WriteOneMore(fields, writes, last, n - 1);
    }
  }

  lemma {:induction false} GroupsAreUpdatesInOrder(
    data: seq<Option<Item>>, display: Option<seq<nat>>, updates: seq<Update>, n: nat, i: nat)
    requires n <= |updates| && i < |data|
    ensures var group := Group(data, display, updates, n, i);
      ApplyAll(data, display, updates, n)[i]
      == if data[i] == None then None else Some(Write(data[i].value.fields, group, |group|))
  {
    if n > 0 {
      GroupsAreUpdatesInOrder(data, display, updates, n - 1, i);
      var before, last := Group(data, display, updates, n - 1, i), updates[n - 1];
      if data[i].Some? && Target(data, display, last) == Some(i) {
        WriteOneMore(data[i].value.fields, before, (last.columnId, last.value), |before|);
      }
    }
  }

  /** Grouping by row is only faster: the new data is what the updates give when applied one by one in their order. */
  lemma GroupingRefinesOneByOne(data: seq<Option<Item>>, display: Option<seq<nat>>, updates: seq<Update>, i: nat)
    requires i < |data|
    ensures FieldsOf(UpdatedRow(data, display, updates, i)) == ApplyAll(data, display, updates, |updates|)[i]
  {
    GroupsAreUpdatesInOrder(data, display, updates, |updates|, i);
  }

  /** Whether an update writes this cell. */
  predicate Writes(data: seq<Option<Item>>, display: Option<seq<nat>>, update: Update, i: nat, columnId: string) {
    Target(data, display, update) == Some(i) && update.columnId == columnId
  }

  /** The last of the first `n` updates that writes this cell. */
  function LastWriter(
    data: seq<Option<Item>>, display: Option<seq<nat>>, updates: seq<Update>, n: nat, i: nat, columnId: string)
    : (last: Option<nat>)
    requires n <= |updates|
    ensures last.Some? ==> last.value < n && Writes(data, display, updates[last.value], i, columnId)
    ensures forall k :: (if last.Some? then last.value < k else 0 <= k) && k < n ==>
      !Writes(data, display, updates[k], i, columnId)
  {
    if n == 0 then None
    else if Writes(data, display, updates[n - 1], i, columnId) then Some(n - 1)
    else LastWriter(data, display, updates, n - 1, i, columnId)
  }

  function Cell(rows: seq<Option<Fields>>, i: nat, columnId: string): Option<Value> {
    if i < |rows| && rows[i].Some? && columnId in rows[i].value then Some(rows[i].value[columnId]) else None
  }

  /** A cell that some update writes has the value of the last one that does; any other cell is as it was. */
  lemma {:induction false} LastWriteWins(
    data: seq<Option<Item>>, display: Option<seq<nat>>, updates: seq<Update>, n: nat, i: nat, columnId: string)
    requires n <= |updates| && i < |data| && data[i].Some?
    ensures ApplyAll(data, display, updates, n)[i].Some?
    ensures Cell(ApplyAll(data, display, updates, n), i, columnId)
      == var last := LastWriter(data, display, updates, n, i, columnId);
        if last.Some? then Some(updates[last.value].value) else Cell(Contents(data), i, columnId)
  {
    if n > 0 {
      LastWriteWins(data, display, updates, n - 1, i, columnId);
    }
  }

  /** A row that no update is for stays the same object, and only such a row does. */
  lemma {:induction false} UntouchedIffNoUpdate(
    data: seq<Option<Item>>, display: Option<seq<nat>>, updates: seq<Update>, n: nat, i: nat)
    requires n <= |updates|
    ensures Group(data, display, updates, n, i) == []
      <==> forall k :: 0 <= k < n ==> Target(data, display, updates[k]) != Some(i)
  {
    if n > 0 {
      UntouchedIffNoUpdate(data, display, updates, n - 1, i);
    }
  }

  /** The row stays the same object exactly if no update is for it, and is a copy otherwise. */
  lemma SameObjectIffNoUpdate(data: seq<Option<Item>>, display: Option<seq<nat>>, updates: seq<Update>, i: nat)
    requires i < |data|
    ensures UpdatedRow(data, display, updates, i) == Missing <==> data[i] == None
    ensures data[i].Some? ==>
      var row := UpdatedRow(data, display, updates, i);
      && (row == Same(data[i].value) <==>
            forall k :: 0 <= k < |updates| ==> Target(data, display, updates[k]) != Some(i))
      && (row.Copied? <==> exists k :: 0 <= k < |updates| && Target(data, display, updates[k]) == Some(i))
  {
    UntouchedIffNoUpdate(data, display, updates, |updates|, i);
  }

  predicate Holds(data: seq<Option<Item>>, ref: nat) {
    exists i :: 0 <= i < |data| && data[i].Some? && data[i].value.ref == ref
  }

  /**
   Whatever the order on display, an update reaches the row that is shown exactly if the data still holds that row;
   otherwise it goes to the data's row of the same number.
   */
  lemma ReachesShownRowIffHeld(data: seq<Option<Item>>, display: seq<nat>, update: Update)
    requires 0 <= update.rowIndex < |display|
    ensures var shown, target := display[update.rowIndex], Target(data, Some(display), update);
      && target.Some?
      && (Holds(data, shown) <==>
            0 <= target.value < |data| && data[target.value].Some? && data[target.value].value.ref == shown)
      && (!Holds(data, shown) ==> target.value == update.rowIndex)
  {
    var first := IndexOf(data, display[update.rowIndex], |data|);
    if first.Some? {
      assert data[first.value].value.ref == display[update.rowIndex];
    }
  }

  /** An update is dropped exactly if it names no row on display; without a display it is taken by its number. */
  lemma DroppedIff(data: seq<Option<Item>>, display: Option<seq<nat>>, update: Update)
    ensures Target(data, display, update) == None
      <==> display.Some? && (update.rowIndex < 0 || update.rowIndex >= |display.value|)
    ensures display == None ==> Target(data, display, update) == Some(update.rowIndex)
  {
  }
}
