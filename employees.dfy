/** The employee directory screen (src/pages/Employees.tsx): an in-memory
    list of `User` records with add, edit, delete, activate/deactivate and
    a free-text search. Each handler's update of the list is a pure
    function below; the class holds the screen's state and its handlers
    assign those functions' results. */
module Employees {
  import opened Types
  import opened Text
  import opened Seqs

  /** The dialog form (`newEmployee: Partial<User>`). The inputs always
      write strings, so `name` and `email` are never undefined. */
  datatype EmployeeForm = EmployeeForm(
    name: string,
    email: string,
    role: Option<Role>,
    department: Option<string>,
    active: Option<bool>)

  /** The form the add dialog opens with. */
  const BlankForm := EmployeeForm("", "", Some(Member), Some("HR"), Some(true))

  /** The form the edit dialog opens with: the employee's own values. */
  function FormOf(e: User): (f: EmployeeForm)
    ensures f.name == e.name && f.email == e.email && f.role == e.role
    ensures f.department == e.department && f.active == e.active
  {
    EmployeeForm(e.name, e.email, e.role, e.department, e.active)
  }

  /** Name and e-mail are required: an empty string is falsy. */
  predicate MissingRequired(f: EmployeeForm)
  {
    f.name == "" || f.email == ""
  }

  /** The add dialog opens with a form that cannot be saved as it is. */
  lemma BlankFormIsRefused()
    ensures MissingRequired(BlankForm)
    ensures forall e: User :: e.name != "" && e.email != "" ==> !MissingRequired(FormOf(e))
  {
  }

  /** `employees.find(emp => emp.id === id)`: the first entry with that id. */
  function Find(es: seq<User>, id: string): (r: Option<User>)
    ensures r.None? <==> forall i :: 0 <= i < |es| ==> es[i].id != id
    ensures r.Some? ==> exists i :: 0 <= i < |es| && es[i] == r.value && r.value.id == id &&
                          forall j :: 0 <= j < i ==> es[j].id != id
    decreases |es|
  {
    if es == [] then None
    else if es[0].id == id then Some(es[0])
    else
      var r := Find(es[1..], id);
      assert r.Some? ==> exists i :: 0 < i < |es| && es[i] == r.value && r.value.id == id &&
                          forall j :: 0 <= j < i ==> es[j].id != id by {
        if r.Some? {
          var k :| 0 <= k < |es| - 1 && es[1..][k] == r.value && r.value.id == id &&
                   forall j :: 0 <= j < k ==> es[1..][j].id != id;
          assert forall j :: 0 < j < k + 1 ==> es[j].id != id by {
            forall j | 0 < j < k + 1 ensures es[j].id != id {
              assert es[j] == es[1..][j - 1];
            }
          }
        }
      }
      assert r.None? ==> forall i :: 0 <= i < |es| ==> es[i].id != id by {
        if r.None? {
          forall i | 0 <= i < |es| ensures es[i].id != id {
            if i > 0 { assert es[i] == es[1..][i - 1]; }
          }
        }
      }
      r
  }

  /** The record handleSaveNewEmployee builds: the form's fields, the given
      id, and none of the other optional fields. */
  function NewEmployee(id: string, f: EmployeeForm): (e: User)
    ensures e.id == id && e.name == f.name && e.email == f.email
    ensures e.role == f.role && e.department == f.department && e.active == f.active
    ensures e.position.None? && e.joinDate.None? && e.profileImage.None?
    ensures e.assignedSurveys.None? && e.completedSurveys.None?
  {
    User(id, f.name, f.email, f.role, f.department, f.active, None, None, None, None, None)
  }

  /** The list after a successful add. The new id is one more than the
      current length, written in decimal; it is NOT guaranteed to be fresh
      (see AddAfterDeleteCanRepeatId). */
  function Appended(es: seq<User>, f: EmployeeForm): (r: seq<User>)
    ensures |r| == |es| + 1
    ensures r[..|es|] == es
    ensures r[|es|] == NewEmployee(DecimalString(|es| + 1), f)
  {
    es + [NewEmployee(DecimalString(|es| + 1), f)]
  }

  /** The spread-and-override record of handleSaveEditEmployee: each `||`
      falls back to the old value when the form's value is falsy, and
      `active` only when the form's value is undefined. */
  function EditedUser(e: User, f: EmployeeForm): (r: User)
    ensures r.id == e.id
    ensures r.name == (if f.name != "" then f.name else e.name)
    ensures r.email == (if f.email != "" then f.email else e.email)
    ensures f.role.Some? ==> r.role == f.role
    ensures f.role.None? ==> r.role == e.role
    ensures (f.department.Some? && f.department.value != "") ==> r.department == f.department
    ensures !(f.department.Some? && f.department.value != "") ==> r.department == e.department
    ensures f.active.Some? ==> r.active == f.active
    ensures f.active.None? ==> r.active == e.active
    ensures r.position == e.position && r.joinDate == e.joinDate && r.profileImage == e.profileImage
    ensures r.assignedSurveys == e.assignedSurveys && r.completedSurveys == e.completedSurveys
  {
    e.(name := if f.name != "" then f.name else e.name,
       email := if f.email != "" then f.email else e.email,
       role := if f.role.Some? then f.role else e.role,
       department := if f.department.Some? && f.department.value != "" then f.department else e.department,
       active := if f.active.Some? then f.active else e.active)
  }

  /** The list after a successful edit: every entry carrying the edited id
      is overwritten, every other one is kept, order and length are kept. */
  function Edited(es: seq<User>, id: string, f: EmployeeForm): (r: seq<User>)
    ensures |r| == |es|
    ensures forall i :: 0 <= i < |es| ==> r[i].id == es[i].id
    ensures forall i :: 0 <= i < |es| && es[i].id != id ==> r[i] == es[i]
    ensures forall i :: 0 <= i < |es| && es[i].id == id ==> r[i] == EditedUser(es[i], f)
  {
    seq(|es|, i requires 0 <= i < |es| => if es[i].id == id then EditedUser(es[i], f) else es[i])
  }

  function IdIsNot(id: string): User -> bool
  {
    (e: User) => e.id != id
  }

  /** The list after a confirmed delete: every entry with the id is gone
      and the others stay in their original order. */
  function Deleted(es: seq<User>, id: string): (r: seq<User>)
    ensures forall i :: 0 <= i < |r| ==> r[i].id != id
    ensures forall i :: 0 <= i < |es| && es[i].id != id ==> es[i] in r
    ensures IsSubsequence(r, es)
    ensures forall u :: multiset(r)[u] == if u.id == id then 0 else multiset(es)[u]
  {
    var r := Filter(es, IdIsNot(id));
    FilterIsSubsequence(es, IdIsNot(id));
    assert forall u :: multiset(r)[u] == if u.id == id then 0 else multiset(es)[u] by {
      forall u ensures multiset(r)[u] == if u.id == id then 0 else multiset(es)[u] {
        FilterCount(es, IdIsNot(id), u);
      }
    }
    r
  }

  /** The list after a toggle: entries with the id get `active` set to the
      negation of the state the button showed; nothing else changes. */
  function Toggled(es: seq<User>, id: string, currentActiveState: bool): (r: seq<User>)
    ensures |r| == |es|
    ensures forall i :: 0 <= i < |es| && es[i].id != id ==> r[i] == es[i]
    ensures forall i :: 0 <= i < |es| && es[i].id == id ==>
              r[i] == es[i].(active := Some(!currentActiveState))
  {
    seq(|es|, i requires 0 <= i < |es| =>
      if es[i].id == id then es[i].(active := Some(!currentActiveState)) else es[i])
  }

  /** Toggling twice from the same displayed state is toggling once: the
      new value depends on the button's state, not on the stored one. */
  lemma ToggleIdempotent(es: seq<User>, id: string, state: bool)
    ensures Toggled(Toggled(es, id, state), id, state) == Toggled(es, id, state)
  {
  }

  /** The edit of an entry, seen through the form the edit dialog opens
      with, changes nothing. */
  lemma EditWithOwnFormIsIdentity(es: seq<User>, i: nat)
    requires i < |es|
    requires forall j :: 0 <= j < |es| && es[j].id == es[i].id ==> es[j] == es[i]
    ensures Edited(es, es[i].id, FormOf(es[i])) == es
  {
    var r := Edited(es, es[i].id, FormOf(es[i]));
    forall j | 0 <= j < |es| ensures r[j] == es[j] {
      if es[j].id == es[i].id {
        assert es[j] == es[i];
        var e := es[j];
        var u := EditedUser(e, FormOf(e));
        assert u.department == e.department;
        assert u == e;
      }
    }
  }

  /** Ids are not unique, and the edit overwrites every entry that shares
      the selected id: saving Ann's own form over [Ann, Bob], both with id
      "2", renames Bob to Ann. */
  lemma EditOverwritesSharedId(a: User, b: User)
    requires a.id == b.id && a.name != "" && a.name != b.name
    ensures Edited([a, b], a.id, FormOf(a))[1].name == a.name
    ensures Edited([a, b], a.id, FormOf(a)) != [a, b]
  {
    var r := Edited([a, b], a.id, FormOf(a));
    assert r[1] == EditedUser(b, FormOf(a));
  }

  /** An id is not fresh: after deleting "1" from ["1", "2"] the next add
      receives id "2" again. */
  lemma AddAfterDeleteCanRepeatId(a: User, b: User, f: EmployeeForm)
    requires a.id == "1" && b.id == "2"
    ensures Appended(Deleted([a, b], "1"), f)[0].id == Appended(Deleted([a, b], "1"), f)[1].id
  {
    var d := Deleted([a, b], "1");
    assert Filter([a, b], IdIsNot("1")) == [b] by {
      assert [a, b][1..] == [b];
      assert Filter([b][1..], IdIsNot("1")) == [];
    }
    assert DecimalString(2) == "2";
  }

  function IsActive(): User -> bool
  {
    (e: User) => e.active == Some(true)
  }

  /** `employees.filter(e => e.active).length`. */
  function CountActive(es: seq<User>): (n: nat)
    ensures n <= |es|
  {
    |Filter(es, IsActive())|
  }

  /** `employees.filter(e => !e.active).length`: undefined counts as inactive. */
  function CountInactive(es: seq<User>): (n: nat)
    ensures n <= |es|
  {
    |Filter(es, Not(IsActive()))|
  }

  /** The active and inactive figures in the card header add up to the total. */
  lemma ActivePlusInactiveIsTotal(es: seq<User>)
    ensures CountActive(es) + CountInactive(es) == |es|
  {
    FilterPartition(es, IsActive());
  }

  /** With every employee active, the header reads "n aktiv, 0 inaktiv". */
  lemma AllActiveCounts(es: seq<User>)
    requires forall i :: 0 <= i < |es| ==> es[i].active == Some(true)
    ensures CountActive(es) == |es| && CountInactive(es) == 0
  {
    FilterAll(es, IsActive());
    ActivePlusInactiveIsTotal(es);
  }

  /** The search predicate for an already lowercased query: the name, the
      e-mail or (when present) the department contains it. */
  predicate EmployeeMatches(e: User, needle: string)
  {
    Contains(Lower(e.name), needle) || Contains(Lower(e.email), needle) ||
    (e.department.Some? && Contains(Lower(e.department.value), needle))
  }

  function MatchesQuery(needle: string): User -> bool
  {
    (e: User) => EmployeeMatches(e, needle)
  }

  /** The search effect: a query that trims to "" shows everyone; any other
      query, untrimmed and lowercased, keeps the matching entries in order. */
  function Search(es: seq<User>, query: string): (r: seq<User>)
    ensures Trim(query) == "" ==> r == es
    ensures IsSubsequence(r, es)
    ensures Trim(query) != "" ==> forall i :: 0 <= i < |r| ==> EmployeeMatches(r[i], Lower(query))
    ensures Trim(query) != "" ==>
              forall i :: 0 <= i < |es| && EmployeeMatches(es[i], Lower(query)) ==> es[i] in r
    ensures Trim(query) != "" ==>
              forall u :: multiset(r)[u] == if EmployeeMatches(u, Lower(query)) then multiset(es)[u] else 0
  {
    if Trim(query) == "" then
      SubsequenceRefl(es);
      es
    else
      var p := MatchesQuery(Lower(query));
      FilterIsSubsequence(es, p);
      forall u ensures multiset(Filter(es, p))[u] == if p(u) then multiset(es)[u] else 0 {
        FilterCount(es, p, u);
      }
      Filter(es, p)
  }

  /** Typing an employee's full name finds that employee, with every
      occurrence of the record. */
  lemma SearchFindsByName(es: seq<User>, i: nat)
    requires i < |es|
    ensures es[i] in Search(es, es[i].name)
    ensures multiset(Search(es, es[i].name))[es[i]] == multiset(es)[es[i]]
  {
    if Trim(es[i].name) != "" {
      ContainsSelf(Lower(es[i].name));
      assert EmployeeMatches(es[i], Lower(es[i].name));
    }
  }

  /** A query of white space only shows the whole list. */
  lemma BlankQueryShowsAll(es: seq<User>, query: string)
    requires forall i :: 0 <= i < |query| ==> IsSpace(query[i])
    ensures Search(es, query) == es
  {
    TrimEmptyIffAllSpace(query);
  }

  /** The outcome of handleSaveEditEmployee. */
  datatype EditOutcome = NoSelection | MissingFields | Saved

  /** The screen's state: the list, the record a dialog acts on, the form,
      the search box and the three dialogs. */
  class EmployeeDirectory {
    var employees: seq<User>
    var current: Option<User>
    var form: EmployeeForm
    var searchQuery: string
    var loading: bool
    var addDialogOpen: bool
    var editDialogOpen: bool
    var deleteDialogOpen: bool

    constructor ()
      ensures employees == [] && current == None && form == BlankForm && searchQuery == ""
      ensures loading && !addDialogOpen && !editDialogOpen && !deleteDialogOpen
    {
      employees := [];
      current := None;
      form := BlankForm;
      searchQuery := "";
      loading := true;
      addDialogOpen := false;
      editDialogOpen := false;
      deleteDialogOpen := false;
    }

    /** The load effect: the fetched list replaces the empty one. */
    method Load(fetched: seq<User>)
      modifies this`employees, this`loading
      ensures employees == fetched && !loading
    {
      employees := fetched;
      loading := false;
    }

    /** The rows the table shows (filteredEmployees). */
    function Shown(): (r: seq<User>)
      reads this
      ensures IsSubsequence(r, employees)
      ensures Trim(searchQuery) == "" ==> r == employees
      ensures Trim(searchQuery) != "" ==>
                forall i :: 0 <= i < |r| ==> EmployeeMatches(r[i], Lower(searchQuery))
      ensures Trim(searchQuery) != "" ==>
                forall u :: multiset(r)[u] == if EmployeeMatches(u, Lower(searchQuery)) then multiset(employees)[u] else 0
    {
      Search(employees, searchQuery)
    }

    function ActiveCount(): (n: nat)
      reads this
      ensures n <= |employees|
    {
      CountActive(employees)
    }

    function InactiveCount(): (n: nat)
      reads this
      ensures n + ActiveCount() == |employees|
    {
      ActivePlusInactiveIsTotal(employees);
      CountInactive(employees)
    }

    /** handleAddEmployee: reset the form and open the add dialog. */
    method OpenAdd()
      modifies this`form, this`addDialogOpen
      ensures form == BlankForm && addDialogOpen
    {
      form := BlankForm;
      addDialogOpen := true;
    }

    /** handleSaveNewEmployee. */
    method SaveNew() returns (saved: bool)
      modifies this`employees, this`addDialogOpen
      ensures saved <==> !MissingRequired(form)
      ensures !saved ==> employees == old(employees) && addDialogOpen == old(addDialogOpen)
      ensures saved ==> employees == Appended(old(employees), form) && !addDialogOpen
    {
      if form.name == "" || form.email == "" {
        return false;
      }
      var id := DecimalString(|employees| + 1);
      var employee := NewEmployee(id, form);
      employees := employees + [employee];
      addDialogOpen := false;
      saved := true;
    }

    /** handleEditEmployee: select the first entry with the id and load it
      into the form; an unknown id does nothing. */
    method OpenEdit(id: string)
      modifies this`current, this`form, this`editDialogOpen
      ensures Find(employees, id).None? ==>
                current == old(current) && form == old(form) && editDialogOpen == old(editDialogOpen)
      ensures Find(employees, id).Some? ==>
                current == Find(employees, id) && form == FormOf(current.value) && editDialogOpen
    {
      var found := Find(employees, id);
      if found.Some? {
        current := found;
        form := FormOf(found.value);
        editDialogOpen := true;
      }
    }

    /** handleSaveEditEmployee. */
    method SaveEdit() returns (outcome: EditOutcome)
      modifies this`employees, this`editDialogOpen
      ensures outcome == NoSelection <==> current.None?
      ensures outcome == MissingFields <==> current.Some? && MissingRequired(form)
      ensures outcome == Saved <==> current.Some? && !MissingRequired(form)
      ensures outcome != Saved ==> employees == old(employees) && editDialogOpen == old(editDialogOpen)
      ensures outcome == Saved ==>
                employees == Edited(old(employees), current.value.id, form) && !editDialogOpen
    {
      if current.None? {
        return NoSelection;
      }
      if form.name == "" || form.email == "" {
        return MissingFields;
      }
      employees := Edited(employees, current.value.id, form);
      editDialogOpen := false;
      outcome := Saved;
    }

    /** handleDeleteEmployee: select the first entry with the id and ask
      for confirmation. */
    method OpenDelete(id: string)
      modifies this`current, this`deleteDialogOpen
      ensures Find(employees, id).None? ==>
                current == old(current) && deleteDialogOpen == old(deleteDialogOpen)
      ensures Find(employees, id).Some? ==> current == Find(employees, id) && deleteDialogOpen
    {
      var found := Find(employees, id);
      if found.Some? {
        current := found;
        deleteDialogOpen := true;
      }
    }

    /** confirmDeleteEmployee. */
    method ConfirmDelete() returns (deleted: bool)
      modifies this`employees, this`deleteDialogOpen
      ensures deleted <==> current.Some?
      ensures !deleted ==> employees == old(employees) && deleteDialogOpen == old(deleteDialogOpen)
      ensures deleted ==> employees == Deleted(old(employees), current.value.id) && !deleteDialogOpen
    {
      if current.None? {
        return false;
      }
      employees := Deleted(employees, current.value.id);
      deleteDialogOpen := false;
      deleted := true;
    }

    /** handleToggleActive(id, currentActiveState). */
    method ToggleActive(id: string, currentActiveState: bool)
      modifies this`employees
      ensures employees == Toggled(old(employees), id, currentActiveState)
    {
      employees := Toggled(employees, id, currentActiveState);
    }
  }
}
