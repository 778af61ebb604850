# Task boards: drag-and-drop moves and list editing, in Dafny

This project models the logic of two task-board components of the
Task-weekly repository and proves what they promise.

- **The three-column board** (`Task.jsx`). The board maps a column id
  (`todo`, `proceso`, `delegadas`) to a column with a title and a list of
  cards (`{id, content}`). `onDragEnd` gets the drop result that the
  drag-and-drop library reports. It ignores a drop outside every column and a
  drop back where the drag started. Otherwise it moves the card: within its
  column, by taking it out and putting it back at the new position of the
  shortened list, or into another column at the drop position. The add form
  of a column trims the typed text, refuses blank text, and adds a card with
  the trimmed text at the bottom of the column.
- **The single-list task manager** (`src/App.jsx`). Its state is the text
  being typed, the list of task texts, the index picked for deletion (or
  null) and whether the confirmation dialog is open. `addTask` appends the
  typed text, untrimmed, unless it is blank. `confirmDelete` remembers an
  index and opens the dialog. `deleteTask` filters out that index, forgets it
  and closes the dialog.

Modules:

- `Splice` (`splice.dfy`): the two uses of `Array.prototype.splice`,
  `a.splice(i, 1)` and `a.splice(i, 0, x)`, on sequences, with their
  multiset and round-trip lemmas.
- `Text` (`text.dfy`): `String.prototype.trim` over ECMAScript's white space
  and line terminators, and the "blank" test both components use.
- `Board` (`board.dfy`): `Task.jsx`. The drop handler and its two branches
  are methods that return the new board; the add handlers are functions.
  `Cards` is every card on the board as a multiset, and `Total` is its size.
- `SingleList` (`single_list.dfy`): `src/App.jsx`. `TaskManager` is a class
  whose methods update its four fields. The new lists are computed by
  functions (`AddedTasks`, and `Remaining` over a model of `filter`).
- `Wrappers` (`wrappers.dfy`): `Option`, for `null` and a missing drop
  target.

A drop outside every column changes nothing. The handler returns at once
(`Task.jsx:47`) and no card is deleted.

## Model

| member | source | states |
|---|---|---|
| `Splice.RemoveAt` | Task.jsx:63 | `splice(i, 1)` leaves one element fewer: those before `i` stay put and those after move down one place |
| `Splice.InsertAt` | Task.jsx:64 | `splice(i, 0, x)` leaves one element more: `x` at `i`, those before stay put and those from `i` on move up one place |
| `Splice.RemoveAtMultiset` | Task.jsx:79 | taking an element out loses exactly that element and no other |
| `Splice.InsertAtMultiset` | Task.jsx:81 | putting an element in adds exactly that element |
| `Splice.InsertRemoved` | Task.jsx:49-55 | putting the taken element back at its own index restores the list, so the early return on a same-position drop agrees with splicing |
| `Splice.RemoveInserted` | Task.jsx:80-81 | taking out what was just put in at an index restores the destination list |
| `Splice.MoveWithin` | Task.jsx:61-64 | remove-then-insert within one list keeps its length and multiset, puts the moved element at the destination, keeps the others in relative order, and leaves every element outside the stretch between the two indices at its index |
| `Splice.MoveWithinAndBack` | Task.jsx:61-64 | dragging a card back to its old position in the same list restores the list |
| `Splice.MoveAcrossAndBack` | Task.jsx:78-81 | moving an element to another list and back to its old index restores both lists |
| `Text.TrimStart` | Task.jsx:170 | the result is a suffix of the input that does not start with white space, and only white space was dropped |
| `Text.TrimEnd` | Task.jsx:170 | the result is a prefix of the input that does not end with white space, and only white space was dropped |
| `Text.Trim` | src/App.jsx:15 | the trimmed text is no longer than the input and neither starts nor ends with white space |
| `Text.TrimSlice` | Task.jsx:170 | what `trim` keeps is one contiguous stretch of the input, and only white space lies outside it |
| `Text.IsBlank` | src/App.jsx:15 | the blank guards `task.trim() === ""` and `!text.trim()`: text is blank exactly when trimming leaves nothing |
| `Text.BlankIffAllSpace` | Task.jsx:170 | text is blank exactly when every character is white space (both directions) |
| `Text.TrimIdempotent` | Task.jsx:170 | trimming twice gives the same text as trimming once, so the guard's `trim()` and the one passed on agree |
| `Text.TrimmedNotBlank` | Task.jsx:170 | the trimmed text of non-blank input is non-empty and itself not blank |
| `Board.InitialColumns` | Task.jsx:18-38 | the starting board has exactly the columns `todo`, `proceso` and `delegadas`, with their titles and 2, 1 and 1 cards |
| `Board.CardsUpdate` | Task.jsx:66-72 | replacing one column's cards changes the board's cards by exactly that column's old and new cards |
| `Board.CardsRedistribute` | Task.jsx:83-93 | replacing two columns' cards by the same cards, however redistributed between them, leaves the board's cards unchanged |
| `Board.DropInSameColumn` | Task.jsx:61-74 | a reorder puts the card from the source index at the destination index, keeps the others' relative order, the column's length and multiset, its title and every other column |
| `Board.DropInOtherColumn` | Task.jsx:77-93 | a cross-column move removes exactly the card from the source, places it at the destination index, keeps both columns' other cards in order, and leaves titles and the other columns unchanged |
| `Board.OnDragEnd` | Task.jsx:43-94 | a drop outside every column or at the starting position leaves the board unchanged; other drops are the reorder or the cross-column move above; the board's multiset of cards and their number are conserved |
| `Board.MovedAcrossAndBack` | Task.jsx:77-93 | moving a card to another column and then back to its old index restores the whole board |
| `Board.ReorderedAndBack` | Task.jsx:61-74 | moving a card within a column and then back to its old index restores the whole board |
| `Board.AddCard` | Task.jsx:144-150 | the new card is appended at the bottom of its column with id `colId-stamp`, every earlier card stays in place, nothing else changes, and the board gains exactly that card |
| `Board.SubmitAddTask` | Task.jsx:170 | blank text changes neither the board nor the field; other text adds a card holding the trimmed, non-blank text and clears the field |
| `SingleList.FilterIndexed` | src/App.jsx:26 | filtering by index never lengthens the list and keeps only elements of the list (multiset inclusion); keeping every index keeps the list |
| `SingleList.NotAt` | src/App.jsx:26 | the filter callback `(_, i) => i !== deleteIndex` keeps exactly the indices other than a non-null `deleteIndex` |
| `SingleList.FilterAllBut` | src/App.jsx:26 | filtering with a test that refuses one index and no other removes exactly the element there when the index is valid, and keeps the list when it is out of range |
| `SingleList.FilterNotAt` | src/App.jsx:26 | filtering out `deleteIndex` removes exactly the element there when it is a valid index and keeps every element when it is null or out of range |
| `SingleList.Remaining` | src/App.jsx:26 | the list `deleteTask` keeps: one element fewer and the order kept for a valid index, the same list otherwise |
| `SingleList.AddedTasks` | src/App.jsx:15-16 | blank text leaves the list as it was; other text is appended exactly as typed, untrimmed, with every earlier entry in place |
| `SingleList.TaskManager.constructor` | src/App.jsx:9-12 | the initial state: empty field, no tasks, no index, dialog closed |
| `SingleList.TaskManager.SetTask` | src/App.jsx:41 | typing sets the field and changes nothing else |
| `SingleList.TaskManager.AddTask` | src/App.jsx:14-18 | the list becomes `AddedTasks` of the old list and field; the field is cleared only when something was added; no stored task is ever blank |
| `SingleList.TaskManager.ConfirmDelete` | src/App.jsx:20-23 | the index is remembered and the dialog opened, and the list and field are untouched |
| `SingleList.TaskManager.DeleteTask` | src/App.jsx:25-30 | exactly the task at a valid remembered index is removed, order kept; with a null or out-of-range index the list is unchanged; afterwards the index is null and the dialog closed |
| `SingleList.TaskManager.SetOpen` | src/App.jsx:64-72 | the dialog's open-change callback and its Cancel button set only whether it is open |

## Left out

- Rendering: JSX, Tailwind classes, header and footer text, and the `Button`,
  `Card`, `Input` and `Dialog` components (Task.jsx:96-164,
  src/App.jsx:32-78).
- The drag-and-drop library (`DragDropContext`, `Droppable`, `Draggable`).
  Its drop result is an input. `Board.OnDragEnd` requires the positions it
  reports to be valid wherever the handler splices. The handler does not
  check them, and the model does not cover what JavaScript would do with a
  bad index (`splice` would move `undefined`).
- `Date.now()`: the new card's id is `colId + "-" + stamp`, where `stamp` is
  a parameter standing for the decimal text of the clock reading. Two adds
  in one column within the same millisecond would give equal ids. The model
  does not assume card ids are unique.
- React's state scheduling. Each handler is one synchronous transition. The
  drop handler reads `columns` from its closure instead of the updater's
  `prev`; with one transition at a time the two are the same.
- Local-storage persistence, the calendar and weekday variants, toggling a
  `done` flag, and deleting a card by id or by a drop outside every column.
  These are not part of this model: `Task.jsx` and `src/App.jsx` have none
  of them.
