/** The sub-object step (src/components/SubObjectSelector.tsx): the template list of the
    chosen type, edited item by item (selection and quantity), and handed to the page when
    the user creates the object. */
module SubObjectSelection {
  import opened Seqs
  import opened Numbers
  import opened ObjectTypes
  import opened MockData
  import opened Creator

  /** `items.map(item => item.id === id ? {...item, selected: !item.selected} : item)`:
      the items carrying `id` change selection, and nothing else changes. */
  function Toggled(items: seq<SubObject>, id: string): (r: seq<SubObject>)
    ensures |r| == |items|
    ensures forall i | 0 <= i < |items| && items[i].id != id :: r[i] == items[i]
    ensures forall i | 0 <= i < |items| && items[i].id == id :: r[i] == items[i].(selected := !items[i].selected)
  {
    if items == [] then []
    else
      var head := if items[0].id == id then items[0].(selected := !items[0].selected) else items[0];
      var r := [head] + Toggled(items[1..], id);
      assert forall i | 1 <= i < |items| :: r[i] == Toggled(items[1..], id)[i - 1] && items[i] == items[1..][i - 1];
      r
  }

  /** `items.map(item => item.id === id ? {...item, count} : item)`: the items carrying `id`
      take the new quantity, and nothing else changes. */
  function WithCount(items: seq<SubObject>, id: string, count: int): (r: seq<SubObject>)
    ensures |r| == |items|
    ensures forall i | 0 <= i < |items| && items[i].id != id :: r[i] == items[i]
    ensures forall i | 0 <= i < |items| && items[i].id == id :: r[i] == items[i].(count := count)
  {
    if items == [] then []
    else
      var head := if items[0].id == id then items[0].(count := count) else items[0];
      var r := [head] + WithCount(items[1..], id, count);
      assert forall i | 1 <= i < |items| :: r[i] == WithCount(items[1..], id, count)[i - 1] && items[i] == items[1..][i - 1];
      r
  }

  /** `parseInt(text) || 1`: the integer the quantity field starts with, or 1 when there is
      none or it is 0. Negative integers are kept. */
  function CoerceCount(text: string): (n: int)
    ensures n != 0
    ensures ParseInt(text).None? ==> n == 1
  {
    match ParseInt(text)
    case None => 1
    case Some(v) => if v == 0 then 1 else v
  }

  /** `items.filter(item => item.selected)`. */
  function SelectedItems(items: seq<SubObject>): (r: seq<SubObject>)
    ensures IsSubsequence(r, items)
    ensures forall x :: x in r <==> x in items && x.selected
    ensures forall x {:trigger multiset(r)[x]} :: multiset(r)[x] == if x.selected then multiset(items)[x] else 0
  {
    var r := Filter(items, (x: SubObject) => x.selected);
    assert forall x | x in items && x.selected :: x in r by {
      forall x | x in items && x.selected ensures x in r {
        var i :| 0 <= i < |items| && items[i] == x;
      }
    }
    r
  }

  /** Toggling the same identifier twice gives back the list. */
  lemma ToggleTwice(items: seq<SubObject>, id: string)
    ensures Toggled(Toggled(items, id), id) == items
  {
  }

  /** Toggles of two identifiers commute. */
  lemma TogglesCommute(items: seq<SubObject>, a: string, b: string)
    ensures Toggled(Toggled(items, a), b) == Toggled(Toggled(items, b), a)
  {
  }

  /** Of two quantity edits of the same item, the later one wins. */
  lemma LastCountWins(items: seq<SubObject>, id: string, first: int, second: int)
    ensures WithCount(WithCount(items, id, first), id, second) == WithCount(items, id, second)
  {
  }

  /** Selecting and setting a quantity are independent. */
  lemma ToggleAndCountCommute(items: seq<SubObject>, a: string, b: string, count: int)
    ensures Toggled(WithCount(items, b, count), a) == WithCount(Toggled(items, a), b, count)
  {
  }

  /** Changing quantities does not change which items are selected, nor their order. */
  lemma CountKeepsSelection(items: seq<SubObject>, id: string, count: int)
    ensures |SelectedItems(WithCount(items, id, count))| == |SelectedItems(items)|
  {
    var edited := WithCount(items, id, count);
    assert forall i | 0 <= i < |items| :: edited[i].selected == items[i].selected;
    SelectedCountAgree(items, edited);
  }

  lemma {:induction false} SelectedCountAgree(a: seq<SubObject>, b: seq<SubObject>)
    requires |a| == |b|
    requires forall i | 0 <= i < |a| :: a[i].selected == b[i].selected
    ensures |SelectedItems(a)| == |SelectedItems(b)|
  {
    if a != [] {
      assert forall i | 0 <= i < |a[1..]| :: a[1..][i].selected == b[1..][i].selected;
      SelectedCountAgree(a[1..], b[1..]);
      assert SelectedItems(a) == Filter(a, (x: SubObject) => x.selected);
    }
  }

  /** Whatever the user types, the stored quantity is never 0; any other integer is
      stored as typed. */
  lemma CoerceCountRoundTrip(n: int)
    requires n != 0
    ensures CoerceCount(IntToString(n)) == n
  {
    ParseIntRoundTrip(n);
  }

  /** An empty field and a literal "0" both store 1. */
  lemma CoerceCountDefaults()
    ensures CoerceCount("") == 1 && CoerceCount("0") == 1
  {
  }

  class SubObjectSelector {
    const parent: ObjectCreator
    const objectType: string
    /** The template list, with the user's selections and quantities. */
    var subObjects: seq<SubObject>

    /** The step is on screen for the page's chosen type and object. */
    ghost predicate Valid()
      reads this, parent
    {
      parent.Valid() && parent.step == SelectSubObjects &&
      parent.selectedType.Some? && parent.selectedType.value.id == objectType
    }

    /** Mounting the step, with its effect: the template list of the type, or none for a
        type without templates. */
    constructor (parent: ObjectCreator)
      requires parent.Valid() && parent.step == SelectSubObjects
      ensures this.parent == parent && objectType == parent.selectedType.value.id
      ensures subObjects == SubObjectsOf(objectType)
      ensures Valid()
    {
      this.parent := parent;
      objectType := parent.selectedType.value.id;
      subObjects := SubObjectsOf(parent.selectedType.value.id);
    }

    /** `toggleSubObject(id)`. */
    method ToggleSubObject(id: string)
      requires Valid()
      modifies this
      ensures Valid()
      ensures subObjects == Toggled(old(subObjects), id)
    {
      subObjects := Toggled(subObjects, id);
    }

    /** `updateSubObjectCount(id, count)`. */
    method UpdateSubObjectCount(id: string, count: int)
      requires Valid()
      modifies this
      ensures Valid()
      ensures subObjects == WithCount(old(subObjects), id, count)
    {
      subObjects := WithCount(subObjects, id, count);
    }

    /** The quantity field's change handler: store the coerced number. */
    method ChangeCountInput(id: string, text: string)
      requires Valid()
      modifies this
      ensures Valid()
      ensures subObjects == WithCount(old(subObjects), id, CoerceCount(text))
    {
      UpdateSubObjectCount(id, CoerceCount(text));
    }

    /** `handleCreateObject`: hand the selected items, in list order, to the page, which
        keeps them and opens the progress dialog. */
    method HandleCreateObject()
      requires Valid()
      modifies parent
      ensures Valid()
      ensures parent.selectedSubObjects == SelectedItems(subObjects) && parent.showProgressModal
      ensures parent.step == old(parent.step) && parent.selectedType == old(parent.selectedType)
      ensures parent.selectedParameters == old(parent.selectedParameters)
      ensures parent.selectedObject == old(parent.selectedObject)
      ensures parent.filteredObjectsCount == old(parent.filteredObjectsCount)
    {
      parent.HandleFinish(SelectedItems(subObjects));
    }
  }
}
