/** The three-column task board (To Do, Proceso, Delegadas) of Task.jsx:
    moving a card by drag and drop, and adding a card to a column. Each
    handler is one synchronous transition from the old board to the new. */
module Board {
  import opened Wrappers
  import opened Splice
  import opened Text

  type ColumnId = string

  /** A card. */
  datatype Item = Item(id: string, content: string)

  /** A column: its title and its cards, top to bottom. */
  datatype Column = Column(name: string, items: seq<Item>)

  /** The board: each column under its id. */
  type Columns = map<ColumnId, Column>

  /** A place on the board: a column and a position in it. */
  datatype Location = Location(droppableId: ColumnId, index: nat)

  /** What the drag-and-drop library reports when a drag ends; there is no
      destination when the card was let go outside every column. */
  datatype DropResult = DropResult(source: Location, destination: Option<Location>)

  /** The board the page starts with. */
  function InitialColumns(): (cols: Columns)
    ensures cols.Keys == {"todo", "proceso", "delegadas"}
    ensures cols["todo"].name == "To Do" && |cols["todo"].items| == 2
    ensures cols["proceso"].name == "Proceso" && |cols["proceso"].items| == 1
    ensures cols["delegadas"].name == "Delegadas" && |cols["delegadas"].items| == 1
  {
    map[
      "todo" := Column("To Do", [Item("t1", "Preparar informe mensual"), Item("t2", "Revisar inventario")]),
      "proceso" := Column("Proceso", [Item("p1", "Empacar pedidos")]),
      "delegadas" := Column("Delegadas", [Item("d1", "Contacto con proveedor")])
    ]
  }

  /** Every card on the board, whatever its column and position. */
  ghost function Cards(cols: Columns): multiset<Item>
    decreases |cols|
  {
    if |cols| == 0 then multiset{}
    else
      var id :| id in cols;
      assert |cols - {id}| < |cols| by {
        assert (cols - {id}).Keys == cols.Keys - {id};
      }
      multiset(cols[id].items) + Cards(cols - {id})
  }

  /** The number of cards on the board (the sum of the column counts shown in the headers). */
  ghost function Total(cols: Columns): nat
  {
    |Cards(cols)|
  }

  /** The cards of a board are those of any one column plus those of the rest. */
  lemma {:induction false} CardsRemove(cols: Columns, id: ColumnId)
    requires id in cols
    ensures Cards(cols) == multiset(cols[id].items) + Cards(cols - {id})
    decreases |cols|
  {
    var pick :| pick in cols && Cards(cols) == multiset(cols[pick].items) + Cards(cols - {pick});
    if pick != id {
      var rest := cols - {pick} - {id};
      assert (cols - {pick}).Keys == cols.Keys - {pick};
      assert (cols - {id}).Keys == cols.Keys - {id};
      assert rest == cols - {id} - {pick};
      CardsRemove(cols - {pick}, id);
      CardsRemove(cols - {id}, pick);
      calc {
        Cards(cols);
        multiset(cols[pick].items) + Cards(cols - {pick});
        multiset(cols[pick].items) + (multiset(cols[id].items) + Cards(rest));
        multiset(cols[id].items) + (multiset(cols[pick].items) + Cards(rest));
        multiset(cols[id].items) + Cards(cols - {id});
      }
    }
  }

  /** Replacing one column's cards replaces exactly those cards on the board. */
  lemma CardsUpdate(cols: Columns, id: ColumnId, col: Column)
    requires id in cols
    ensures Cards(cols) == multiset(cols[id].items) + Cards(cols - {id})
    ensures Cards(cols[id := col]) == multiset(col.items) + Cards(cols - {id})
  {
    CardsRemove(cols, id);
    CardsRemove(cols[id := col], id);
    assert cols[id := col] - {id} == cols - {id};
  }

  /** The cards of a board are those of any two columns plus those of the rest. */
  lemma CardsRemoveTwo(cols: Columns, a: ColumnId, b: ColumnId)
    requires a in cols && b in cols && a != b
    ensures Cards(cols) == multiset(cols[a].items) + multiset(cols[b].items) + Cards(cols - {a} - {b})
  {
    CardsRemove(cols, a);
    CardsRemove(cols - {a}, b);
  }

  /** Replacing the cards of two columns by the same cards, however
      redistributed between them, leaves the board's cards unchanged. */
  lemma CardsRedistribute(cols: Columns, a: ColumnId, b: ColumnId, colA: Column, colB: Column)
    requires a in cols && b in cols && a != b
    requires multiset(colA.items) + multiset(colB.items) == multiset(cols[a].items) + multiset(cols[b].items)
    ensures Cards(cols[a := colA][b := colB]) == Cards(cols)
  {
    var next := cols[a := colA][b := colB];
    var rest := cols - {a} - {b};
    assert Cards(cols) == multiset(cols[a].items) + multiset(cols[b].items) + Cards(rest) by {
      CardsRemoveTwo(cols, a, b);
    }
    assert Cards(next) == multiset(colA.items) + multiset(colB.items) + Cards(rest) by {
      CardsRemoveTwo(next, a, b);
      assert next - {a} - {b} == rest;
    }
  }

  /** Only the cards of the columns in `ids` may differ between the two
      boards: the same column ids, the same titles, every other column equal. */
  predicate OnlyItemsOf(before: Columns, after: Columns, ids: set<ColumnId>)
  {
    && after.Keys == before.Keys
    && (forall id :: id in before && id in ids ==> after[id].name == before[id].name)
    && (forall id :: id in before && id !in ids ==> after[id] == before[id])
  }

  /** The positions the library reports are valid wherever the handler
      splices: the columns exist, the source position holds a card, and the
      destination position is at most the length of the destination column
      once the card has left it. The handler does not check this. */
  predicate InRange(columns: Columns, result: DropResult)
  {
    match result.destination
    case None => true
    case Some(dst) =>
      || result.source == dst
      || (&& result.source.droppableId in columns
          && dst.droppableId in columns
          && result.source.index < |columns[result.source.droppableId].items|
          && dst.index <= |columns[dst.droppableId].items|
                          - (if dst.droppableId == result.source.droppableId then 1 else 0))
  }

  /** A drop at another position of the column it started in. */
  predicate IsReorderDrop(result: DropResult)
  {
    && result.destination.Some?
    && result.destination.value.droppableId == result.source.droppableId
    && result.destination.value.index != result.source.index
  }

  /** A drop in another column than the one it started in. */
  predicate IsCrossDrop(result: DropResult)
  {
    result.destination.Some? && result.destination.value.droppableId != result.source.droppableId
  }

  /** `after` is `before` with the card at position `i` of column `id` taken
      out and put back at position `j`: the card lands at `j`, the column's
      other cards keep their relative order, the column keeps its length and
      its cards, and nothing else on the board changes. */
  predicate Reordered(before: Columns, after: Columns, id: ColumnId, i: nat, j: nat)
  {
    && id in before
    && OnlyItemsOf(before, after, {id})
    && i < |before[id].items| && j < |after[id].items|
    && |after[id].items| == |before[id].items|
    && after[id].items[j] == before[id].items[i]
    && RemoveAt(after[id].items, j) == RemoveAt(before[id].items, i)
    && multiset(after[id].items) == multiset(before[id].items)
  }

  /** `after` is `before` with the card at position `i` of column `src` moved
      to position `j` of column `dst`: the source column loses just that
      card, the destination column gains it at `j`, both keep the relative
      order of their other cards, and nothing else on the board changes. */
  predicate MovedAcross(before: Columns, after: Columns, src: ColumnId, i: nat, dst: ColumnId, j: nat)
  {
    && src in before && dst in before
    && OnlyItemsOf(before, after, {src, dst})
    && i < |before[src].items|
    && after[src].items == RemoveAt(before[src].items, i)
    && |after[dst].items| == |before[dst].items| + 1
    && j < |after[dst].items|
    && after[dst].items[j] == before[src].items[i]
    && RemoveAt(after[dst].items, j) == before[dst].items
  }

  /** Moving a card to another column and then back to where it came from
      restores the whole board. */
  lemma MovedAcrossAndBack(before: Columns, mid: Columns, after: Columns,
                           src: ColumnId, i: nat, dst: ColumnId, j: nat)
    requires src != dst
    requires MovedAcross(before, mid, src, i, dst, j)
    requires MovedAcross(mid, after, dst, j, src, i)
    ensures after == before
  {
    InsertRemoved(after[src].items, i);
    InsertRemoved(before[src].items, i);
    forall k | k in after ensures after[k] == before[k] { }
  }

  /** Moving a card within its column and then back to where it came from
      restores the whole board. */
  lemma ReorderedAndBack(before: Columns, mid: Columns, after: Columns, id: ColumnId, i: nat, j: nat)
    requires Reordered(before, mid, id, i, j)
    requires Reordered(mid, after, id, j, i)
    ensures after == before
  {
    InsertRemoved(after[id].items, i);
    InsertRemoved(before[id].items, i);
    forall k | k in after ensures after[k] == before[k] { }
  }

  /** Lines 61-74 of `onDragEnd`: a drop at another position of the same
      column. The column's cards are copied, the dragged one is spliced out
      and spliced back in at the destination position of the shortened list. */
  method DropInSameColumn(columns: Columns, id: ColumnId, from: nat, to: nat) returns (next: Columns)
    requires id in columns && from < |columns[id].items| && to < |columns[id].items|
    ensures Reordered(columns, next, id, from, to)
    ensures Cards(next) == Cards(columns)
  {
    var sourceCol := columns[id];
    var newItems := sourceCol.items;
    var moved := newItems[from];
    newItems := RemoveAt(newItems, from);
    newItems := InsertAt(newItems, to, moved);
    next := columns[id := sourceCol.(items := newItems)];
    MoveWithin(sourceCol.items, from, to);
    assert Cards(next) == Cards(columns) by {
      CardsUpdate(columns, id, sourceCol.(items := newItems));
    }
  }

  /** Lines 77-93 of `onDragEnd`: a drop in another column. Both columns'
      cards are copied, the dragged one is spliced out of the source and into
      the destination at the destination position. */
  method DropInOtherColumn(columns: Columns, src: ColumnId, from: nat, dst: ColumnId, to: nat)
    returns (next: Columns)
    requires src in columns && dst in columns && src != dst
    requires from < |columns[src].items| && to <= |columns[dst].items|
    ensures MovedAcross(columns, next, src, from, dst, to)
    ensures Cards(next) == Cards(columns)
  {
    var sourceCol, destCol := columns[src], columns[dst];
    var sourceItems := sourceCol.items;
    var moved := sourceItems[from];
    sourceItems := RemoveAt(sourceItems, from);
    var destItems := destCol.items;
    destItems := InsertAt(destItems, to, moved);
    next := columns[src := sourceCol.(items := sourceItems)][dst := destCol.(items := destItems)];
    assert next[src] == sourceCol.(items := sourceItems) && next[dst] == destCol.(items := destItems);
    assert OnlyItemsOf(columns, next, {src, dst});
    assert RemoveAt(destItems, to) == destCol.items by {
      RemoveInserted(destCol.items, to, moved);
    }
    assert Cards(next) == Cards(columns) by {
      RemoveAtMultiset(sourceCol.items, from);
      InsertAtMultiset(destCol.items, to, moved);
      CardsRedistribute(columns, src, dst, sourceCol.(items := sourceItems), destCol.(items := destItems));
    }
  }

  /** `onDragEnd`: the board after a drag ends. A drop outside every column
      and a drop where the drag started change nothing; a drop elsewhere in
      the same column moves the card there; a drop in another column moves it
      across. No card is lost or duplicated. */
  method OnDragEnd(columns: Columns, result: DropResult) returns (next: Columns)
    requires InRange(columns, result)
    ensures Cards(next) == Cards(columns) && Total(next) == Total(columns)
    ensures result.destination.None? ==> next == columns
    ensures result.destination == Some(result.source) ==> next == columns
    ensures IsReorderDrop(result) ==>
      Reordered(columns, next, result.source.droppableId, result.source.index, result.destination.value.index)
    ensures IsCrossDrop(result) ==>
      MovedAcross(columns, next, result.source.droppableId, result.source.index,
                  result.destination.value.droppableId, result.destination.value.index)
  {
    if result.destination.None? {
      return columns;
    }
    var source, destination := result.source, result.destination.value;
    if source.droppableId == destination.droppableId && source.index == destination.index {
      return columns;
    }
    if source.droppableId == destination.droppableId {
      next := DropInSameColumn(columns, source.droppableId, source.index, destination.index);
    } else {
      next := DropInOtherColumn(columns, source.droppableId, source.index, destination.droppableId, destination.index);
    }
  }

  /** The `onAdd` handler of column `colId`: a new card holding `content` at
      the bottom of that column. `stamp` stands for the decimal text of
      `Date.now()`, which the new card's id is built from. */
  function AddCard(columns: Columns, colId: ColumnId, content: string, stamp: string): (next: Columns)
    requires colId in columns
    ensures OnlyItemsOf(columns, next, {colId})
    ensures var before, after := columns[colId].items, next[colId].items;
      && |after| == |before| + 1
      && after[..|before|] == before
      && after[|before|] == Item(colId + "-" + stamp, content)
    ensures Cards(next) == Cards(columns) + multiset{Item(colId + "-" + stamp, content)}
    ensures Total(next) == Total(columns) + 1
  {
    var newTask := Item(colId + "-" + stamp, content);
    var col := columns[colId].(items := columns[colId].items + [newTask]);
    assert Cards(columns[colId := col]) == Cards(columns) + multiset{newTask} by {
      CardsUpdate(columns, colId, col);
      assert multiset(col.items) == multiset(columns[colId].items) + multiset{newTask};
    }
    columns[colId := col]
  }

  /** The board and the add form's input field after the form of column
      `colId` is submitted holding `text`. */
  datatype Submitted = Submitted(columns: Columns, text: string)

  /** Submitting the add form: blank text changes nothing and stays in the
      field; otherwise the trimmed text becomes a new card at the bottom of
      the column and the field is cleared. */
  function SubmitAddTask(columns: Columns, colId: ColumnId, text: string, stamp: string): (r: Submitted)
    requires colId in columns
    ensures IsBlank(text) ==> r == Submitted(columns, text)
    ensures !IsBlank(text) ==>
      && r.text == ""
      && r.columns == AddCard(columns, colId, Trim(text), stamp)
      && Trim(text) != []
      && !IsBlank(Trim(text))
  {
    if IsBlank(text) then Submitted(columns, text)
    else
      TrimmedNotBlank(text);
      Submitted(AddCard(columns, colId, Trim(text), stamp), "")
  }
}
