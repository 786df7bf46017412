/** The row operations of the `ProyectoTableView` application: the table's
    item list and the three input fields as object state, and the handlers
    that add, delete and restore rows. */
module TableViewApp {
  import opened JavaLang
  import opened Dates
  import opened PersonRecord
  import opened PersonTableUtil
  import opened RowRemoval

  /** The values held by a list of `Person` objects, position by position. */
  function DataOf(ps: seq<Person>): (r: seq<PersonData>)
    reads ps
    ensures |r| == |ps|
    ensures forall i :: 0 <= i < |ps| ==> r[i] == ps[i].Data()
  {
    if ps == [] then [] else DataOf(ps[..|ps| - 1]) + [ps[|ps| - 1].Data()]
  }

  lemma DataOfAppend(a: seq<Person>, b: seq<Person>)
    ensures DataOf(a + b) == DataOf(a) + DataOf(b)
  {
    var r := DataOf(a + b);
    assert forall i :: 0 <= i < |a| ==> (a + b)[i] == a[i];
    assert forall i :: |a| <= i < |a| + |b| ==> (a + b)[i] == b[i - |a|];
  }

  /** Reading the values of the surviving records is the same as removing
      the positions from the values. */
  lemma {:induction false} DataOfKeep(ps: seq<Person>, gone: set<int>, i: nat)
    requires i <= |ps|
    ensures DataOf(Keep(ps, gone, i)) == Keep(DataOf(ps), gone, i)
    decreases |ps| - i
  {
    if i < |ps| {
      DataOfKeep(ps, gone, i + 1);
      var head := if i in gone then [] else [ps[i]];
      DataOfAppend(head, Keep(ps, gone, i + 1));
    }
  }

  class ProyectoTableView {
    /** `table.getItems()`. */
    var items: seq<Person>
    /** `fNameField.getText()`, `lNameField.getText()`, `dobField.getValue()`. */
    var firstNameInput: Option<string>
    var lastNameInput: Option<string>
    var birthDateInput: Option<LocalDate>

    /** The rows as values. */
    function Rows(): seq<PersonData>
      reads this, items
    {
      DataOf(items)
    }

    /** The state `start` sets up: empty text fields, an empty date picker
        and the table filled from `getPersonList`. */
    constructor Start()
      ensures Rows() == SeedRows()
      ensures forall p :: p in items ==> fresh(p)
      ensures forall i, j :: 0 <= i < j < |items| ==> items[i] != items[j]
      ensures firstNameInput == Some("") && lastNameInput == Some("") && birthDateInput == None
    {
      firstNameInput := Some("");
      lastNameInput := Some("");
      birthDateInput := None;
      var list := GetPersonList();
      items := list;
    }

    /** `deleteSelectedRows`: with nothing selected, reports it and changes
        nothing; otherwise sorts the selected positions and removes them from
        the last to the first. The result is the list with exactly the
        selected positions left out, shorter by their number, whatever order
        they were selected in. */
    method DeleteSelectedRows(selectedIndices: seq<int>) returns (noSelection: bool)
      requires Distinct(selectedIndices)
      requires forall k :: k in selectedIndices ==> 0 <= k < |items|
      modifies this`items
      ensures noSelection <==> selectedIndices == []
      ensures items == Without(old(items), Elems(selectedIndices))
      ensures |items| == |old(items)| - |selectedIndices|
      ensures Rows() == Without(old(Rows()), Elems(selectedIndices))
    {
      if selectedIndices == [] {
        WithoutNothing(items);
        WithoutNothing(Rows());
        assert Elems(selectedIndices) == {};
        return true;
      }
      noSelection := false;
      SelectionLength(items, selectedIndices);
      ghost var before := items;
      var sorted := Sort(selectedIndices);
      SortedSelection(selectedIndices, |items|);
      RemoveFromBack(sorted);
      DataOfKeep(before, Elems(selectedIndices), 0);
    }

    /** The loop of `deleteSelectedRows`: removes the positions of an
        ascending index array from the last to the first, so that each index
        is still in range when its turn comes. */
    method RemoveFromBack(sorted: seq<int>)
      requires StrictlyIncreasing(sorted)
      requires forall x :: x in sorted ==> 0 <= x < |items|
      modifies this`items
      ensures items == Without(old(items), Elems(sorted))
    {
      ghost var original := items;
      DeletionBounds(original, sorted);
      var i := |sorted| - 1;
      while i >= 0
        invariant -1 <= i < |sorted|
        invariant items == Without(original, Elems(sorted[i + 1..]))
      {
        var k := sorted[i];
        DeleteFromBack(original, sorted, i);
        // removing from the back keeps `k` within the current list
        assert 0 <= k < |items|;
        items := items[..k] + items[k + 1..];
        i := i - 1;
      }
      assert sorted[i + 1..] == sorted;
    }

    /** `restoreRows`: whatever the table held, it now holds five new records
        with the seed values. */
    method RestoreRows()
      modifies this`items
      ensures Rows() == SeedRows()
      ensures forall p :: p in items ==> fresh(p)
      ensures forall i, j :: 0 <= i < j < |items| ==> items[i] != items[j]
    {
      items := [];
      var list := GetPersonList();
      items := items + list;
    }

    /** `getPerson`: a new record built from the three inputs. */
    method GetPerson() returns (p: Person)
      ensures fresh(p)
      ensures p.Data() == PersonData(0, firstNameInput, lastNameInput, birthDateInput)
    {
      p := new Person(firstNameInput, lastNameInput, birthDateInput);
    }

    /** `addPerson`: appends a new record built from the inputs, keeps every
        earlier row, then clears the inputs. */
    method AddPerson()
      modifies this
      ensures |items| == |old(items)| + 1
      ensures items[..|old(items)|] == old(items)
      ensures fresh(items[|old(items)|])
      ensures Rows() == old(Rows()) + [PersonData(0, old(firstNameInput), old(lastNameInput), old(birthDateInput))]
      ensures firstNameInput == None && lastNameInput == None && birthDateInput == None
    {
      var p := GetPerson();
      items := items + [p];
      ClearFields();
    }

    /** `clearFields`: all three inputs become null; the rows stay. */
    method ClearFields()
      modifies this`firstNameInput, this`lastNameInput, this`birthDateInput
      ensures firstNameInput == None && lastNameInput == None && birthDateInput == None
    {
      firstNameInput := None;
      lastNameInput := None;
      birthDateInput := None;
    }
  }
}
