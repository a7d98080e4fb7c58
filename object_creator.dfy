/** The page that drives the wizard (src/pages/ObjectCreator.tsx): a three-step state
    machine holding the chosen type, the selected parameters, the chosen catalog object,
    the chosen sub-objects, whether the progress dialog is open, and how many objects the
    parameter step currently shows. Each handler is one sequential update of that state. */
module Creator {
  import opened Wrappers
  import opened ObjectTypes

  /** The wizard's steps, in order. */
  datatype CreationStep = SelectType | SelectParameters | SelectSubObjects

  class ObjectCreator {
    /** The catalog of system objects the steps draw on (`systemObjects`). */
    const catalog: seq<SystemObject>
    var step: CreationStep
    var selectedType: Option<ObjectType>
    var selectedParameters: seq<Parameter>
    var selectedObject: Option<SystemObject>
    var selectedSubObjects: seq<SubObject>
    var showProgressModal: bool
    var filteredObjectsCount: int

    /** The state the page starts in, and the one it returns to after an object is created. */
    predicate IsInitial()
      reads this
    {
      step == SelectType && selectedType == None && selectedParameters == [] &&
      selectedObject == None && selectedSubObjects == [] && !showProgressModal &&
      filteredObjectsCount == 0
    }

    /** What every reachable state satisfies: the later steps have a type, the last step
        has an object, the first step carries nothing over, and a chosen object is a
        catalog object of the chosen type. */
    ghost predicate Valid()
      reads this
    {
      (step != SelectType ==> selectedType.Some?) &&
      (step == SelectSubObjects ==> selectedObject.Some?) &&
      (step == SelectType ==>
         selectedType == None && selectedParameters == [] && selectedObject == None &&
         filteredObjectsCount == 0) &&
      (selectedObject.Some? ==>
         selectedType.Some? && selectedObject.value in catalog &&
         selectedObject.value.objectType == selectedType.value.id) &&
      filteredObjectsCount >= 0
    }

    /** `isNextEnabled`: the "Далее" button is active only once an object is chosen and
        exactly one object is shown. */
    predicate IsNextEnabled()
      reads this
      ensures IsNextEnabled() && Valid() ==> selectedObject.Some? && selectedObject.value in catalog
    {
      selectedObject.Some? && filteredObjectsCount == 1
    }

    /** The page's initial state, over the given catalog. */
    constructor (catalog: seq<SystemObject>)
      ensures this.catalog == catalog
      ensures IsInitial() && Valid()
    {
      this.catalog := catalog;
      step := SelectType;
      selectedType := None;
      selectedParameters := [];
      selectedObject := None;
      selectedSubObjects := [];
      showProgressModal := false;
      filteredObjectsCount := 0;
    }

    /** `handleTypeSelect`: take the type, go to the parameter step, and forget the
        parameters, the object and the count. */
    method HandleTypeSelect(t: ObjectType)
      requires Valid()
      modifies this
      ensures Valid()
      ensures step == SelectParameters && selectedType == Some(t)
      ensures selectedParameters == [] && selectedObject == None && filteredObjectsCount == 0
      ensures selectedSubObjects == old(selectedSubObjects) && showProgressModal == old(showProgressModal)
    {
      selectedType := Some(t);
      step := SelectParameters;
      selectedParameters := [];
      selectedObject := None;
      filteredObjectsCount := 0;
    }

    /** `handleParameterSelect`, the parameter step's `onSelectParameters`: replace the
        selected parameters. */
    method HandleParameterSelect(parameters: seq<Parameter>)
      requires Valid() && step == SelectParameters
      modifies this
      ensures Valid()
      ensures selectedParameters == parameters
      ensures step == old(step) && selectedType == old(selectedType) && selectedObject == old(selectedObject)
      ensures selectedSubObjects == old(selectedSubObjects) && showProgressModal == old(showProgressModal)
      ensures filteredObjectsCount == old(filteredObjectsCount)
    {
      selectedParameters := parameters;
    }

    /** `handleObjectSelect`, the parameter step's `onSelectObject`: remember the object,
        which is one of the catalog objects of the chosen type that step shows. */
    method HandleObjectSelect(o: SystemObject)
      requires Valid() && step == SelectParameters
      requires o in catalog && o.objectType == selectedType.value.id
      modifies this
      ensures Valid()
      ensures selectedObject == Some(o)
      ensures step == old(step) && selectedType == old(selectedType) && selectedParameters == old(selectedParameters)
      ensures selectedSubObjects == old(selectedSubObjects) && showProgressModal == old(showProgressModal)
      ensures filteredObjectsCount == old(filteredObjectsCount)
    {
      selectedObject := Some(o);
    }

    /** `handleObjectsFiltered`, the parameter step's `onObjectsFiltered`: record how many
        objects that step shows. */
    method HandleObjectsFiltered(count: nat)
      requires Valid() && step == SelectParameters
      modifies this
      ensures Valid()
      ensures filteredObjectsCount == count
      ensures step == old(step) && selectedType == old(selectedType) && selectedParameters == old(selectedParameters)
      ensures selectedObject == old(selectedObject) && selectedSubObjects == old(selectedSubObjects)
      ensures showProgressModal == old(showProgressModal)
    {
      filteredObjectsCount := count;
    }

    /** `handleNext`: from the parameter step with an object chosen, go to the sub-object
        step; otherwise nothing happens. The count is not consulted here, only by the
        button's enabled state, so an enabled click always advances. */
    method HandleNext()
      requires Valid()
      modifies this
      ensures Valid()
      ensures step == (if old(step) == SelectParameters && old(selectedObject).Some? then SelectSubObjects else old(step))
      ensures old(step) == SelectParameters && old(IsNextEnabled()) ==> step == SelectSubObjects
      ensures selectedType == old(selectedType) && selectedParameters == old(selectedParameters)
      ensures selectedObject == old(selectedObject) && selectedSubObjects == old(selectedSubObjects)
      ensures showProgressModal == old(showProgressModal) && filteredObjectsCount == old(filteredObjectsCount)
    {
      if step == SelectParameters && selectedObject.Some? {
        step := SelectSubObjects;
      }
    }

    /** `handleBack`: from the sub-object step return to the parameter step keeping
        everything; from the parameter step return to the type step clearing the type,
        the parameters, the object and the count; from the type step do nothing. */
    method HandleBack()
      requires Valid()
      modifies this
      ensures Valid()
      ensures old(step) == SelectSubObjects ==>
                step == SelectParameters && selectedType == old(selectedType) &&
                selectedParameters == old(selectedParameters) && selectedObject == old(selectedObject) &&
                filteredObjectsCount == old(filteredObjectsCount)
      ensures old(step) == SelectParameters ==>
                step == SelectType && selectedType == None && selectedParameters == [] &&
                selectedObject == None && filteredObjectsCount == 0
      ensures old(step) == SelectType ==>
                step == SelectType && selectedType == old(selectedType) &&
                selectedParameters == old(selectedParameters) && selectedObject == old(selectedObject) &&
                filteredObjectsCount == old(filteredObjectsCount)
      ensures selectedSubObjects == old(selectedSubObjects) && showProgressModal == old(showProgressModal)
    {
      if step == SelectSubObjects {
        step := SelectParameters;
      } else if step == SelectParameters {
        step := SelectType;
        selectedType := None;
        selectedParameters := [];
        selectedObject := None;
        filteredObjectsCount := 0;
      }
    }

    /** `handleFinish`, the sub-object step's `onNext`: keep the chosen sub-objects and open
        the progress dialog, staying on the same step. */
    method HandleFinish(subObjects: seq<SubObject>)
      requires Valid() && step == SelectSubObjects
      modifies this
      ensures Valid()
      ensures selectedSubObjects == subObjects && showProgressModal
      ensures step == old(step) && selectedType == old(selectedType) && selectedParameters == old(selectedParameters)
      ensures selectedObject == old(selectedObject) && filteredObjectsCount == old(filteredObjectsCount)
    {
      selectedSubObjects := subObjects;
      showProgressModal := true;
    }

    /** `handleCloseModal`: close the dialog and start over from the initial state. */
    method HandleCloseModal()
      modifies this
      ensures IsInitial() && Valid()
    {
      showProgressModal := false;
      step := SelectType;
      selectedType := None;
      selectedParameters := [];
      selectedObject := None;
      selectedSubObjects := [];
      filteredObjectsCount := 0;
    }
  }

  /** Only a state with a type and a chosen object can have Next enabled, and in the
      first step it never is. */
  lemma NextEnabledNeedsObject(c: ObjectCreator)
    requires c.Valid() && c.IsNextEnabled()
    ensures c.step != SelectType && c.selectedType.Some? && c.selectedObject.Some?
    ensures c.selectedObject.value.objectType == c.selectedType.value.id
  {
  }
}
