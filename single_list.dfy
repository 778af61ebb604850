/** The single-list task manager of src/App.jsx: the list of task texts, the
    text being typed, and the confirmation dialog for deleting one task.
    Each handler is one synchronous state transition. */
module SingleList {
  import opened Wrappers
  import opened Splice
  import opened Text

  /** `s.filter((_, i) => keep(i))`: the elements whose index passes `keep`,
      in their original order. */
  function FilterIndexed<T>(s: seq<T>, keep: nat -> bool): (r: seq<T>)
    ensures |r| <= |s|
    ensures multiset(r) <= multiset(s)
    ensures (forall i: nat :: i < |s| ==> keep(i)) ==> r == s
  {
    if s == [] then []
    else
      var n := |s| - 1;
      assert s == s[..n] + [s[n]];
      FilterIndexed(s[..n], keep) + (if keep(n) then [s[n]] else [])
  }

  /** The test of `deleteTask`'s filter, `i !== deleteIndex`. */
  function NotAt(deleteIndex: Option<int>): (keep: nat -> bool)
    ensures deleteIndex.None? ==> forall i: nat :: keep(i)
    ensures deleteIndex.Some? && deleteIndex.value >= 0 ==>
      !keep(deleteIndex.value) && forall i: nat :: i != deleteIndex.value ==> keep(i)
  {
    i => deleteIndex != Some(i as int)
  }

  /** Filtering with a test that refuses index `d` and no other removes
      exactly the element at `d` when it is a valid index, and keeps every
      element when `d` is out of range. */
  lemma {:induction false} FilterAllBut<T>(s: seq<T>, keep: nat -> bool, d: int)
    requires forall i: nat :: keep(i) <==> i != d
    ensures FilterIndexed(s, keep) == if 0 <= d < |s| then RemoveAt(s, d) else s
  {
    if s != [] {
      var n := |s| - 1;
      FilterAllBut(s[..n], keep, d);
      assert s == s[..n] + [s[n]];
      if d == n {
        assert RemoveAt(s, n) == s[..n];
      } else if 0 <= d < n {
        assert RemoveAt(s[..n], d) + [s[n]] == RemoveAt(s, d);
      }
    }
  }

  /** Filtering out index `deleteIndex` removes exactly the element there
      when it is a valid index, and keeps every element when it is null or
      out of range. */
  lemma FilterNotAt<T>(s: seq<T>, deleteIndex: Option<int>)
    ensures FilterIndexed(s, NotAt(deleteIndex))
         == if deleteIndex.Some? && 0 <= deleteIndex.value < |s| then RemoveAt(s, deleteIndex.value) else s
  {
    var d := if deleteIndex.Some? && deleteIndex.value >= 0 then deleteIndex.value else -1;
    FilterAllBut(s, NotAt(deleteIndex), d);
  }

  /** The list `deleteTask` keeps, `tasks.filter((_, i) => i !== deleteIndex)`:
      exactly the element at `deleteIndex` is gone when that is a valid
      index, and nothing is gone when it is null or out of range. */
  function Remaining(tasks: seq<string>, deleteIndex: Option<int>): (r: seq<string>)
    ensures deleteIndex.Some? && 0 <= deleteIndex.value < |tasks| ==>
      r == RemoveAt(tasks, deleteIndex.value) && |r| == |tasks| - 1
    ensures !(deleteIndex.Some? && 0 <= deleteIndex.value < |tasks|) ==> r == tasks
    ensures forall t :: t in r ==> t in tasks
  {
    var r := FilterIndexed(tasks, NotAt(deleteIndex));
    FilterNotAt(tasks, deleteIndex);
    r
  }

  /** The list after `addTask` with `task` in the input field: unchanged when
      the text is blank, otherwise the text exactly as typed (not trimmed)
      added at the end with every earlier entry in place. */
  function AddedTasks(tasks: seq<string>, task: string): (r: seq<string>)
    ensures IsBlank(task) ==> r == tasks
    ensures !IsBlank(task) ==> |r| == |tasks| + 1 && r[..|tasks|] == tasks && r[|tasks|] == task
  {
    if Trim(task) == "" then tasks else tasks + [task]
  }

  /** The component's state. `Valid` holds between handlers: no stored task
      is blank, since only non-blank text is ever added. */
  class TaskManager {
    var task: string
    var tasks: seq<string>
    var deleteIndex: Option<int>
    var open: bool

    ghost predicate Valid()
      reads this
    {
      forall t :: t in tasks ==> !IsBlank(t)
    }

    /** The initial state: empty field, no tasks, nothing to delete, dialog closed. */
    constructor ()
      ensures Valid()
      ensures task == "" && tasks == [] && deleteIndex == None && !open
    {
      task, tasks, deleteIndex, open := "", [], None, false;
    }

    /** The input field's `onChange`. */
    method SetTask(value: string)
      requires Valid()
      modifies this
      ensures Valid()
      ensures task == value
      ensures tasks == old(tasks) && deleteIndex == old(deleteIndex) && open == old(open)
    {
      task := value;
    }

    /** `addTask`: blank text leaves everything as it was; other text is
        appended as typed and the field is cleared. */
    method AddTask()
      requires Valid()
      modifies this
      ensures Valid()
      ensures tasks == AddedTasks(old(tasks), old(task))
      ensures task == if IsBlank(old(task)) then old(task) else ""
      ensures deleteIndex == old(deleteIndex) && open == old(open)
    {
      if Trim(task) == "" {
        return;
      }
      tasks := tasks + [task];
      task := "";
    }

    /** `confirmDelete(index)`: remember the index and open the dialog. */
    method ConfirmDelete(index: int)
      requires Valid()
      modifies this
      ensures Valid()
      ensures deleteIndex == Some(index) && open
      ensures tasks == old(tasks) && task == old(task)
    {
      deleteIndex := Some(index);
      open := true;
    }

    /** `deleteTask`: drop the task at the remembered index (none when it is
        null or out of range), forget the index and close the dialog. */
    method DeleteTask()
      requires Valid()
      modifies this
      ensures Valid()
      ensures tasks == Remaining(old(tasks), old(deleteIndex))
      ensures old(deleteIndex).Some? && 0 <= old(deleteIndex).value < |old(tasks)| ==>
        tasks == RemoveAt(old(tasks), old(deleteIndex).value) && |tasks| == |old(tasks)| - 1
      ensures !(old(deleteIndex).Some? && 0 <= old(deleteIndex).value < |old(tasks)|) ==>
        tasks == old(tasks)
      ensures deleteIndex == None && !open && task == old(task)
    {
      var updated := Remaining(tasks, deleteIndex);
      tasks := updated;
      deleteIndex := None;
      open := false;
    }

    /** The dialog's `onOpenChange` and its Cancel button: set whether the
        dialog is shown, changing nothing else. */
    method SetOpen(value: bool)
      requires Valid()
      modifies this
      ensures Valid()
      ensures open == value
      ensures tasks == old(tasks) && task == old(task) && deleteIndex == old(deleteIndex)
    {
      open := value;
    }
  }
}
