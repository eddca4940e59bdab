/** A model of the entry-list tracker of the `Home` page of the work-hours
    tracker: an ordered list of time entries, the four form fields that a new
    entry is typed into, and a copy of the list kept in browser storage.

    The three handlers (add, clear, delete by position) are methods of the
    class `Home`; the list they build is described by pure sequence
    functions, and the lemmas below say what those functions mean. */
module WorkHoursTracker {

  /** One row of the table. Every field is the string the form input
      delivered; `hours` is kept as text, as the page stores it. */
  datatype Entry = Entry(employeeName: string, date: string, hours: string, task: string)

  /** The outcome of a handler, in place of the notification it shows:
      added, rejected for a missing field, list cleared, row deleted. */
  datatype Status = Success | Warning | Info | Deleted

  datatype Option<T> = None | Some(value: T)

  /** JavaScript's `!s` for a string value: true exactly on the empty string.
      Whitespace, "0" and "false" are all non-empty, so all are truthy. */
  predicate Falsy(s: string) {
    |s| == 0
  }

  /** `s.filter((_, index) => index !== idx)`: the elements of `s` whose
      position differs from `idx`, in their order. Written from the back so
      that every element is compared with its own position in `s`. */
  function FilterIndex<T>(s: seq<T>, idx: int): (r: seq<T>)
    ensures |r| == if 0 <= idx < |s| then |s| - 1 else |s|
  {
    if s == [] then []
    else FilterIndex(s[..|s| - 1], idx) + (if |s| - 1 == idx then [] else [s[|s| - 1]])
  }

  /** A position that is not in the list matches no element: nothing is removed. */
  lemma {:induction false} FilterIndexOutside<T>(s: seq<T>, idx: int)
    requires idx < 0 || |s| <= idx
    ensures FilterIndex(s, idx) == s
  {
    if s != [] {
      FilterIndexOutside(s[..|s| - 1], idx);
      assert s[..|s| - 1] + [s[|s| - 1]] == s;
    }
  }

  /** A position in the list removes exactly that element: everything before
      it stays where it was, everything after it moves up by one. */
  lemma {:induction false} FilterIndexRemoves<T>(s: seq<T>, idx: int)
    requires 0 <= idx < |s|
    ensures FilterIndex(s, idx) == s[..idx] + s[idx + 1..]
    ensures forall j :: 0 <= j < idx ==> FilterIndex(s, idx)[j] == s[j]
    ensures forall j :: idx <= j < |s| - 1 ==> FilterIndex(s, idx)[j] == s[j + 1]
  {
    var n := |s|;
    var init := s[..n - 1];
    if idx == n - 1 {
      FilterIndexOutside(init, idx);
      assert s[..idx] == init;
      assert s[idx + 1..] == [];
    } else {
      FilterIndexRemoves(init, idx);
      assert init[..idx] == s[..idx];
      assert init[idx + 1..] + [s[n - 1]] == s[idx + 1..];
    }
  }

  /** Deleting by position takes away one occurrence of the element found
      there and keeps every other element, duplicates of it included. */
  lemma {:induction false} FilterIndexMultiset<T>(s: seq<T>, idx: int)
    requires 0 <= idx < |s|
    ensures multiset(FilterIndex(s, idx)) + multiset{s[idx]} == multiset(s)
  {
    FilterIndexRemoves(s, idx);
    assert s == s[..idx] + [s[idx]] + s[idx + 1..];
  }

  /** The page component. `saved` stands for the list held in browser
      storage under the key "hoursTracking"; the page rewrites it in full
      whenever `entries` changes, so outside a handler the two agree. */
  class Home {
    var entries: seq<Entry>
    var employeeName: string
    var date: string
    var hours: string
    var task: string
    var saved: seq<Entry>

    /** Storage mirrors the in-memory list. */
    ghost predicate Valid()
      reads this
    {
      saved == entries
    }

    /** All four form fields are truthy, the condition under which an entry
        is accepted. */
    predicate FormComplete()
      reads this
    {
      !Falsy(employeeName) && !Falsy(date) && !Falsy(hours) && !Falsy(task)
    }

    /** Mounting the page: empty form fields and the list loaded from
        storage, or the empty list when storage holds nothing (`stored` is
        `None` both for a missing item and for one that reads back as null).
        The storage then holds the loaded list. */
    constructor (stored: Option<seq<Entry>>)
      ensures Valid()
      ensures entries == (if stored.Some? then stored.value else [])
      ensures employeeName == "" && date == "" && hours == "" && task == ""
    {
      entries := if stored.Some? then stored.value else [];
      employeeName, date, hours, task := "", "", "", "";
      saved := entries;
    }

    /** The effect that writes the whole list back to storage. */
    method Persist()
      modifies this`saved
      ensures saved == entries
    {
      saved := entries;
    }

    /** Typing into the employee-name input. */
    method SetEmployeeName(value: string)
      modifies this`employeeName
      ensures employeeName == value
    {
      employeeName := value;
    }

    /** Typing into the date input. */
    method SetDate(value: string)
      modifies this`date
      ensures date == value
    {
      date := value;
    }

    /** Typing into the hours input. */
    method SetHours(value: string)
      modifies this`hours
      ensures hours == value
    {
      hours := value;
    }

    /** Typing into the task input. */
    method SetTask(value: string)
      modifies this`task
      ensures task == value
    {
      task := value;
    }

    /** "Add Entry": with every field filled in, appends one entry made of
        the four fields, empties the form and saves the list; with any field
        empty, changes nothing and warns. */
    method AddEntry() returns (status: Status)
      requires Valid()
      modifies this
      ensures Valid()
      ensures status == (if old(FormComplete()) then Success else Warning)
      ensures old(FormComplete()) ==>
        && entries == old(entries) + [Entry(old(employeeName), old(date), old(hours), old(task))]
        && employeeName == "" && date == "" && hours == "" && task == ""
      ensures !old(FormComplete()) ==>
        && entries == old(entries) && saved == old(saved)
        && employeeName == old(employeeName) && date == old(date)
        && hours == old(hours) && task == old(task)
    {
      if Falsy(employeeName) || Falsy(date) || Falsy(hours) || Falsy(task) {
        return Warning;
      }
      var newEntry := Entry(employeeName, date, hours, task);
      entries := entries + [newEntry];
      employeeName, date, hours, task := "", "", "", "";
      Persist();
      status := Success;
    }

    /** "Clear All Entries": empties the list, whatever it held, and saves
        it; the form is left as it is. */
    method ClearEntries() returns (status: Status)
      requires Valid()
      modifies this`entries, this`saved
      ensures Valid()
      ensures entries == [] && status == Info
      ensures employeeName == old(employeeName) && date == old(date)
      ensures hours == old(hours) && task == old(task)
    {
      entries := [];
      Persist();
      status := Info;
    }

    /** The delete button of a row: keeps every entry whose position differs
        from `indexToDelete` and saves the list. A position in the list
        removes that one entry; any other position removes nothing. */
    method DeleteEntry(indexToDelete: int) returns (status: Status)
      requires Valid()
      modifies this`entries, this`saved
      ensures Valid()
      ensures entries == FilterIndex(old(entries), indexToDelete) && status == Deleted
      ensures 0 <= indexToDelete < |old(entries)| ==>
        entries == old(entries)[..indexToDelete] + old(entries)[indexToDelete + 1..]
      ensures !(0 <= indexToDelete < |old(entries)|) ==> entries == old(entries)
      ensures employeeName == old(employeeName) && date == old(date)
      ensures hours == old(hours) && task == old(task)
    {
      if 0 <= indexToDelete < |entries| {
        FilterIndexRemoves(entries, indexToDelete);
      } else {
        FilterIndexOutside(entries, indexToDelete);
      }
      entries := FilterIndex(entries, indexToDelete);
      Persist();
      status := Deleted;
    }
  }

  /** Reloading the page after any sequence of handlers mounts a new page
      that starts with the list the old one had, and with an empty form. */
  method Reload(home: Home) returns (reopened: Home)
    requires home.Valid()
    ensures fresh(reopened) && reopened.Valid()
    ensures reopened.entries == home.entries
    ensures reopened.employeeName == "" && reopened.date == ""
    ensures reopened.hours == "" && reopened.task == ""
  {
    reopened := new Home(Some(home.saved));
  }

  /** Filling in the form on an empty page and adding gives a one-row list. */
  method ExampleAddOneRow() returns (status: Status, rows: seq<Entry>)
    ensures status == Success
    ensures rows == [Entry("Ann", "2024-05-01", "8", "QA")]
  {
    var home := new Home(None);
    home.SetEmployeeName("Ann");
    home.SetDate("2024-05-01");
    home.SetHours("8");
    home.SetTask("QA");
    status := home.AddEntry();
    rows := home.entries;
  }

  /** Adding with the task left empty warns, keeps the list and keeps what
      was typed into the other fields. */
  method ExampleMissingTask() returns (status: Status, rows: seq<Entry>, name: string)
    ensures status == Warning && rows == [] && name == "Ann"
  {
    var home := new Home(None);
    home.SetEmployeeName("Ann");
    home.SetDate("2024-05-01");
    home.SetHours("8");
    status := home.AddEntry();
    rows := home.entries;
    name := home.employeeName;
  }

  /** Only emptiness is checked: zero hours and a blank-looking name pass. */
  method ExampleOnlyEmptinessChecked() returns (status: Status, rows: seq<Entry>)
    ensures status == Success
    ensures rows == [Entry(" ", "2024-05-04", "0", "QA")]
  {
    var home := new Home(Some([]));
    home.SetEmployeeName(" ");
    home.SetDate("2024-05-04");
    home.SetHours("0");
    home.SetTask("QA");
    status := home.AddEntry();
    rows := home.entries;
  }

  /** Deleting removes the row at the position only, even when another row
      is equal to it; a position past the end removes nothing; clearing
      then empties the list and the storage. */
  method ExampleDeleteAndClear() returns (afterDelete: seq<Entry>, afterMiss: seq<Entry>, afterClear: seq<Entry>, stored: seq<Entry>)
    ensures afterDelete == [Entry("Bo", "2024-05-02", "4", "Dev"), Entry("Ann", "2024-05-01", "8", "QA")]
    ensures afterMiss == afterDelete
    ensures afterClear == [] && stored == []
  {
    var a := Entry("Ann", "2024-05-01", "8", "QA");
    var b := Entry("Bo", "2024-05-02", "4", "Dev");
    var home := new Home(Some([a, b, a]));
    var status := home.DeleteEntry(0);
    afterDelete := home.entries;
    status := home.DeleteEntry(2);
    afterMiss := home.entries;
    status := home.ClearEntries();
    afterClear := home.entries;
    stored := home.saved;
  }

  /** The page keeps working after a reload: a row added before it is still
      there, and a row added after it goes to the end. */
  method ExampleReloadThenAdd() returns (status: Status, rows: seq<Entry>)
    ensures status == Success
    ensures rows == [Entry("Ann", "2024-05-01", "8", "QA"), Entry("Bo", "2024-05-02", "4", "Dev")]
  {
    var home := new Home(None);
    home.SetEmployeeName("Ann");
    home.SetDate("2024-05-01");
    home.SetHours("8");
    home.SetTask("QA");
    status := home.AddEntry();
    var reopened := Reload(home);
    reopened.SetEmployeeName("Bo");
    reopened.SetDate("2024-05-02");
    reopened.SetHours("4");
    reopened.SetTask("Dev");
    status := reopened.AddEntry();
    rows := reopened.entries;
  }
}
