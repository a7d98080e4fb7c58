/** The parameter step (src/components/ParameterSelector.tsx) as an object with the
    component's state cells. Its callbacks `onSelectParameters`, `onSelectObject` and
    `onObjectsFiltered` are the page's handlers, called on `parent`. */
module ParameterSelection {
  import opened Wrappers
  import opened Seqs
  import opened ObjectTypes
  import opened MockData
  import opened Matching
  import opened Creator

  class ParameterSelector {
    const parent: ObjectCreator
    const objectType: string
    /** `parametersByType[objectType] || []`, the type's parameter definitions; the type
        does not change while the step is shown. */
    const definitions: seq<Parameter>
    /** The parameter definitions listed on the left (all of them, or a search result). */
    var parameters: seq<Parameter>
    /** The catalog objects listed on the right. */
    var filteredObjects: seq<SystemObject>
    var searchTerm: string
    /** The text typed for each selected parameter. */
    var userValues: map<string, string>
    /** Whether the "no analogues found" notice is shown. */
    var noMatch: bool

    /** The step is on screen for the page's chosen type; values exist only for
        selected parameters (inputs are rendered only for them); the page's count is the
        length of the list shown; the list holds catalog objects of the type; and when
        the list has one object, that is the chosen object if there is one. */
    ghost predicate Valid()
      reads this, parent
    {
      parent.Valid() && parent.step == SelectParameters &&
      parent.selectedType.Some? && parent.selectedType.value.id == objectType &&
      userValues.Keys <= Ids(parent.selectedParameters) &&
      parent.filteredObjectsCount == |filteredObjects| &&
      (forall o | o in filteredObjects :: o in parent.catalog && o.objectType == objectType) &&
      (|filteredObjects| == 1 && parent.selectedObject.Some? ==> parent.selectedObject.value == filteredObjects[0])
    }

    /** Mounting the step, with the effect at its start: list the type's parameter
        definitions and all catalog objects of the type, and report their number. */
    constructor (parent: ObjectCreator)
      requires parent.Valid() && parent.step == SelectParameters
      modifies parent
      ensures this.parent == parent && objectType == old(parent.selectedType.value.id)
      ensures definitions == ParametersOf(objectType) && parameters == definitions
      ensures filteredObjects == OfType(parent.catalog, objectType)
      ensures searchTerm == "" && userValues == map[] && !noMatch
      ensures parent.filteredObjectsCount == |filteredObjects|
      ensures parent.step == old(parent.step) && parent.selectedType == old(parent.selectedType)
      ensures parent.selectedParameters == old(parent.selectedParameters)
      ensures parent.selectedObject == old(parent.selectedObject)
      ensures parent.selectedSubObjects == old(parent.selectedSubObjects)
      ensures parent.showProgressModal == old(parent.showProgressModal)
      ensures Valid()
    {
      this.parent := parent;
      objectType := parent.selectedType.value.id;
      definitions := ParametersOf(parent.selectedType.value.id);
      parameters := definitions;
      var objects := OfType(parent.catalog, parent.selectedType.value.id);
      filteredObjects := objects;
      searchTerm := "";
      userValues := map[];
      noMatch := false;
      new;
      parent.HandleObjectsFiltered(|objects|);
      SoleObjectIsChosen(parent.catalog, objects, parent.selectedObject, objectType);
    }

    /** `isSelected(parameter)`. */
    predicate IsSelected(p: Parameter)
      reads parent
    {
      p.id in Ids(parent.selectedParameters)
    }

    /** `filterObjectsByUserCriteria(params, values)`: show the objects of the type that
        meet every criterion (all of them when no parameter is given), show the notice
        exactly when parameters are given and nothing is left, report the count, and,
        when parameters are given and exactly one object is left, choose it. */
    method FilterObjectsByUserCriteria(params: seq<Parameter>, values: map<string, string>)
      requires parent.Valid() && parent.step == SelectParameters
      requires parent.selectedType.Some? && parent.selectedType.value.id == objectType
      modifies this, parent
      ensures filteredObjects == FilterObjects(parent.catalog, objectType, params, values)
      ensures noMatch <==> |params| > 0 && filteredObjects == []
      ensures parent.filteredObjectsCount == |filteredObjects|
      ensures parent.selectedObject ==
                if |params| > 0 && |filteredObjects| == 1 then Some(filteredObjects[0]) else old(parent.selectedObject)
      ensures parent.step == old(parent.step) && parent.selectedType == old(parent.selectedType)
      ensures parent.selectedParameters == old(parent.selectedParameters)
      ensures parent.selectedSubObjects == old(parent.selectedSubObjects)
      ensures parent.showProgressModal == old(parent.showProgressModal)
      ensures parameters == old(parameters) && searchTerm == old(searchTerm) && userValues == old(userValues)
      ensures parent.Valid()
      ensures forall o | o in filteredObjects :: o in parent.catalog && o.objectType == objectType
      ensures |filteredObjects| == 1 && parent.selectedObject.Some? ==> parent.selectedObject.value == filteredObjects[0]
    {
      if |params| == 0 {
        var objects := OfType(parent.catalog, objectType);
        NoParametersMeansType(parent.catalog, objectType, values);
        filteredObjects := objects;
        noMatch := false;
        parent.HandleObjectsFiltered(|objects|);
        SoleObjectIsChosen(parent.catalog, objects, parent.selectedObject, objectType);
        return;
      }
      var objects := FilterObjects(parent.catalog, objectType, params, values);
      filteredObjects := objects;
      noMatch := |objects| == 0;
      parent.HandleObjectsFiltered(|objects|);
      if |objects| == 1 {
        parent.HandleObjectSelect(objects[0]);
      }
    }

    /** `toggleParameter(p)`. Deselecting removes the parameter and its value and filters
        with the rest. Selecting appends it and seeds its value with the default's text,
        but the filter pass that follows still sees the values from before the toggle,
        which hold nothing for `p`, so it gives the same objects as the values and
        parameters before the toggle did. */
    method ToggleParameter(p: Parameter)
      requires Valid()
      modifies this, parent
      ensures Valid()
      ensures old(IsSelected(p)) ==>
                parent.selectedParameters == RemoveById(old(parent.selectedParameters), p.id) &&
                userValues == old(userValues) - {p.id} &&
                filteredObjects == FilterObjects(parent.catalog, objectType, parent.selectedParameters, userValues)
      ensures !old(IsSelected(p)) ==>
                parent.selectedParameters == old(parent.selectedParameters) + [p] &&
                userValues == old(userValues)[p.id := p.value.ToString()] &&
                filteredObjects == FilterObjects(parent.catalog, objectType, old(parent.selectedParameters), old(userValues))
      ensures noMatch <==> |parent.selectedParameters| > 0 && filteredObjects == []
      ensures parent.selectedObject ==
                if |parent.selectedParameters| > 0 && |filteredObjects| == 1 then Some(filteredObjects[0])
                else old(parent.selectedObject)
      ensures parameters == old(parameters) && searchTerm == old(searchTerm)
      ensures parent.selectedType == old(parent.selectedType)
      ensures parent.selectedSubObjects == old(parent.selectedSubObjects)
      ensures parent.showProgressModal == old(parent.showProgressModal)
    {
      var selected := parent.selectedParameters;
      if p.id in Ids(selected) {
        var remaining := RemoveById(selected, p.id);
        parent.HandleParameterSelect(remaining);
        var values := userValues - {p.id};
        userValues := values;
        FilterObjectsByUserCriteria(remaining, values);
      } else {
        var extended := selected + [p];
        IdsAppend(selected, p);
        parent.HandleParameterSelect(extended);
        var before := userValues;
        userValues := before[p.id := p.value.ToString()];
        FilterObjectsByUserCriteria(extended, before);
        ValuelessParameterChangesNothing(parent.catalog, objectType, selected, p, before);
      }
    }

    /** `handleUserValueChange(id, text)`: store the text typed for a selected parameter
        and filter again with the same parameters. */
    method HandleUserValueChange(id: string, text: string)
      requires Valid() && id in Ids(parent.selectedParameters)
      modifies this, parent
      ensures Valid()
      ensures userValues == old(userValues)[id := text]
      ensures parent.selectedParameters == old(parent.selectedParameters)
      ensures filteredObjects == FilterObjects(parent.catalog, objectType, parent.selectedParameters, userValues)
      ensures noMatch <==> |parent.selectedParameters| > 0 && filteredObjects == []
      ensures parent.selectedObject ==
                if |parent.selectedParameters| > 0 && |filteredObjects| == 1 then Some(filteredObjects[0])
                else old(parent.selectedObject)
      ensures parameters == old(parameters) && searchTerm == old(searchTerm)
      ensures parent.step == old(parent.step) && parent.selectedType == old(parent.selectedType)
      ensures parent.selectedSubObjects == old(parent.selectedSubObjects)
      ensures parent.showProgressModal == old(parent.showProgressModal)
    {
      var values := userValues[id := text];
      userValues := values;
      FilterObjectsByUserCriteria(parent.selectedParameters, values);
    }

    /** Typing in the search box. */
    method SetSearchTerm(term: string)
      requires Valid()
      modifies this
      ensures Valid()
      ensures searchTerm == term
      ensures parameters == old(parameters) && filteredObjects == old(filteredObjects)
      ensures userValues == old(userValues) && noMatch == old(noMatch)
    {
      searchTerm := term;
    }

    /** `handleSearch`: list the type's definitions that match the search term. */
    method HandleSearch()
      requires Valid()
      modifies this
      ensures Valid()
      ensures parameters == SearchParameters(definitions, searchTerm)
      ensures searchTerm == old(searchTerm) && filteredObjects == old(filteredObjects)
      ensures userValues == old(userValues) && noMatch == old(noMatch)
    {
      parameters := SearchParameters(definitions, searchTerm);
    }

    /** Clicking a row of the object list chooses that object. */
    method SelectObjectRow(o: SystemObject)
      requires Valid() && o in filteredObjects
      modifies parent
      ensures Valid()
      ensures parent.selectedObject == Some(o)
      ensures parent.step == old(parent.step) && parent.selectedParameters == old(parent.selectedParameters)
      ensures parent.filteredObjectsCount == old(parent.filteredObjectsCount)
      ensures parent.selectedType == old(parent.selectedType)
      ensures parent.selectedSubObjects == old(parent.selectedSubObjects)
      ensures parent.showProgressModal == old(parent.showProgressModal)
    {
      parent.HandleObjectSelect(o);
    }
  }

  /** When the list is the whole type and holds one object, an object already chosen for
      the type is that one. */
  lemma SoleObjectIsChosen(catalog: seq<SystemObject>, objects: seq<SystemObject>, chosen: Option<SystemObject>, objectType: string)
    requires objects == OfType(catalog, objectType)
    requires chosen.Some? ==> chosen.value in catalog && chosen.value.objectType == objectType
    ensures |objects| == 1 && chosen.Some? ==> chosen.value == objects[0]
  {
    if |objects| == 1 && chosen.Some? {
      assert chosen.value in objects;
    }
  }

  /** With Next enabled, the parameter step shows exactly one object, and it is the
      chosen one: moving on always continues with the single remaining match. */
  lemma NextEnabledMeansSoleMatch(s: ParameterSelector)
    requires s.Valid() && s.parent.IsNextEnabled()
    ensures s.filteredObjects == [s.parent.selectedObject.value]
  {
  }
}
