/** The state of the map view and its event handlers: placing towers, the select /
    deselect / link state machine of tower clicks, editing a tower, and removing towers
    and links. Each handler runs to completion before the next event, so the state
    updates it requests are applied together, in order. */
module MapViewState {
  import opened Model
  import opened Seqs
  import opened Registry
  import opened Stats

  /** Which branch of a tower click ran. `FrequencyMismatch` is the branch that shows
      the "different frequencies" alert. */
  datatype Click = Selected | Deselected | NoSuchTower | FrequencyMismatch | AlreadyLinked | Linked

  class MapView {
    var towers: seq<Tower>
    var links: seq<Link>
    var selectedTowerId: Option<Id>
    var selectedLinkId: Option<Id>
    var editingFreq: string
    var editingName: string
    var fresnelEllipse: Option<FresnelEllipse>
    var nextTowerId: Id
    var nextLinkId: Id

    /** The invariants every handler keeps; see `Registry.Consistent`. */
    ghost predicate Valid()
      reads this
    {
      1 <= nextTowerId && 1 <= nextLinkId && Consistent(towers, links, nextTowerId, nextLinkId)
    }

    /** Every link's two ends are towers of the list. */
    ghost predicate LinksResolved()
      reads this
    {
      Resolved(towers, links)
    }

    /** The initial state: no towers, no links, nothing selected, empty edit fields,
        both counters at 1. */
    constructor ()
      ensures Valid() && LinksResolved()
      ensures towers == [] && links == []
      ensures selectedTowerId == None && selectedLinkId == None
      ensures editingFreq == "" && editingName == "" && fresnelEllipse == None
      ensures nextTowerId == 1 && nextLinkId == 1
    {
      towers, links := [], [];
      selectedTowerId, selectedLinkId := None, None;
      editingFreq, editingName := "", "";
      fresnelEllipse := None;
      nextTowerId, nextLinkId := 1, 1;
    }

    /** `handleMapClick`: append a tower at the clicked position, named `Tower <id>`,
        at 5 GHz, whose id is the tower counter, and advance the counter. */
    method HandleMapClick(latlng: GeoPoint)
      requires Valid()
      modifies this
      ensures Valid()
      ensures old(LinksResolved()) ==> LinksResolved()
      ensures towers == old(towers) + [Tower(old(nextTowerId), latlng, DefaultFreqGHz, DefaultName(old(nextTowerId)))]
      ensures old(nextTowerId) !in Ids(old(towers))
      ensures nextTowerId == old(nextTowerId) + 1
      ensures links == old(links) && nextLinkId == old(nextLinkId)
      ensures selectedTowerId == old(selectedTowerId) && selectedLinkId == old(selectedLinkId)
      ensures editingFreq == old(editingFreq) && editingName == old(editingName)
      ensures fresnelEllipse == old(fresnelEllipse)
    {
      AddTowerKeepsConsistent(towers, links, nextTowerId, nextLinkId, latlng);
      var id := nextTowerId;
      nextTowerId := nextTowerId + 1;
      towers := towers + [NewTower(id, latlng)];
    }

    /** `handleTowerClick`: with nothing selected, select the tower; clicking the
        selected tower deselects it; otherwise try to link the selected tower to the
        clicked one. The attempt gives up when the selected tower is gone, when the
        two frequencies differ, or when a link already joins the two towers in either
        orientation; on success it appends a link from the selected tower to the
        clicked one, with the link counter as id. Every attempt clears the selection. */
    method HandleTowerClick(tower: Tower) returns (outcome: Click)
      requires Valid()
      modifies this
      ensures Valid()
      ensures towers == old(towers) && nextTowerId == old(nextTowerId)
      ensures selectedLinkId == old(selectedLinkId) && fresnelEllipse == old(fresnelEllipse)
      ensures editingFreq == old(editingFreq) && editingName == old(editingName)
      // selection toggles
      ensures outcome == Selected <==> old(selectedTowerId) == None
      ensures outcome == Selected ==> selectedTowerId == Some(tower.id)
      ensures outcome == Deselected <==> old(selectedTowerId) == Some(tower.id)
      ensures outcome != Selected ==> selectedTowerId == None
      // the link attempt
      ensures outcome == NoSuchTower <==>
        old(selectedTowerId).Some? && old(selectedTowerId) != Some(tower.id) &&
        Find(old(towers), old(selectedTowerId).value) == None
      ensures outcome == FrequencyMismatch <==>
        old(selectedTowerId).Some? && old(selectedTowerId) != Some(tower.id) &&
        Find(old(towers), old(selectedTowerId).value).Some? &&
        Find(old(towers), old(selectedTowerId).value).value.freqGHz != tower.freqGHz
      ensures outcome == AlreadyLinked <==>
        old(selectedTowerId).Some? && old(selectedTowerId) != Some(tower.id) &&
        Find(old(towers), old(selectedTowerId).value).Some? &&
        Find(old(towers), old(selectedTowerId).value).value.freqGHz == tower.freqGHz &&
        LinkExists(old(links), old(selectedTowerId).value, tower.id)
      ensures outcome == Linked ==>
        old(selectedTowerId).Some? && old(selectedTowerId) != Some(tower.id) &&
        Find(old(towers), old(selectedTowerId).value).Some? &&
        Find(old(towers), old(selectedTowerId).value).value.freqGHz == tower.freqGHz &&
        !LinkExists(old(links), old(selectedTowerId).value, tower.id) &&
        links == old(links) + [Link(old(nextLinkId), old(selectedTowerId).value, tower.id)] &&
        nextLinkId == old(nextLinkId) + 1
      ensures outcome != Linked ==> links == old(links) && nextLinkId == old(nextLinkId)
      // a link joining two registered towers keeps every link end resolved
      ensures old(LinksResolved()) && tower.id in Ids(old(towers)) ==> LinksResolved()
    {
      if selectedTowerId == None {
        selectedTowerId := Some(tower.id);
        outcome := Selected;
      } else if selectedTowerId == Some(tower.id) {
        selectedTowerId := None;
        outcome := Deselected;
      } else {
        var selected := Find(towers, selectedTowerId.value);
        if selected == None {
          selectedTowerId := None;
          outcome := NoSuchTower;
        } else if selected.value.freqGHz != tower.freqGHz {
          selectedTowerId := None;
          outcome := FrequencyMismatch;
        } else if LinkExists(links, selected.value.id, tower.id) {
          selectedTowerId := None;
          outcome := AlreadyLinked;
        } else {
          var a := selected.value;
          AddLinkKeepsConsistent(towers, links, nextTowerId, nextLinkId, a.id, tower.id);
          links := links + [Link(nextLinkId, a.id, tower.id)];
          nextLinkId := nextLinkId + 1;
          selectedTowerId := None;
          outcome := Linked;
        }
      }
    }

    /** `openEditTower`: load the tower's frequency text and name (its default name
        when the name is empty) into the edit fields and select the tower. `format` is
        the number-to-text conversion `String(...)`. */
    method OpenEditTower(tower: Tower, format: real -> string)
      requires Valid()
      modifies this
      ensures Valid()
      ensures editingFreq == format(tower.freqGHz)
      ensures editingName == (if tower.name == "" then DefaultName(tower.id) else tower.name)
      ensures selectedTowerId == Some(tower.id)
      ensures towers == old(towers) && links == old(links)
      ensures nextTowerId == old(nextTowerId) && nextLinkId == old(nextLinkId)
      ensures selectedLinkId == old(selectedLinkId) && fresnelEllipse == old(fresnelEllipse)
    {
      editingFreq := format(tower.freqGHz);
      editingName := if tower.name == "" then DefaultName(tower.id) else tower.name;
      selectedTowerId := Some(tower.id);
    }

    /** `saveFreq`: the selected tower takes the edited name, and the parsed frequency
        unless it is zero or NaN; no other tower changes. Then the selection and both
        edit fields are cleared. `parseFloat` is the text-to-number conversion. */
    method SaveFreq(parseFloat: string -> Parsed)
      requires Valid()
      modifies this
      ensures Valid()
      ensures old(LinksResolved()) ==> LinksResolved()
      ensures towers == ApplyEdit(old(towers), old(selectedTowerId), parseFloat(old(editingFreq)), old(editingName))
      ensures Ids(towers) == Ids(old(towers))
      ensures selectedTowerId == None && editingFreq == "" && editingName == ""
      ensures links == old(links)
      ensures nextTowerId == old(nextTowerId) && nextLinkId == old(nextLinkId)
      ensures selectedLinkId == old(selectedLinkId) && fresnelEllipse == old(fresnelEllipse)
    {
      var parsed := parseFloat(editingFreq);
      EditKeepsConsistent(towers, links, nextTowerId, nextLinkId, selectedTowerId, parsed, editingName);
      towers := ApplyEdit(towers, selectedTowerId, parsed, editingName);
      selectedTowerId := None;
      editingFreq := "";
      editingName := "";
    }

    /** `removeTower(id)`: drop the tower with that id and every link with that id at
        either end, keeping the others in order. The selection is left as it is. */
    method RemoveTower(id: Id)
      requires Valid()
      modifies this
      ensures Valid()
      ensures old(LinksResolved()) ==> LinksResolved()
      ensures towers == Filter(old(towers), TowerOtherThan(id))
      ensures links == Filter(old(links), LinkAvoiding(id))
      ensures Ids(towers) == Ids(old(towers)) - {id}
      ensures selectedTowerId == old(selectedTowerId) && selectedLinkId == old(selectedLinkId)
      ensures editingFreq == old(editingFreq) && editingName == old(editingName)
      ensures fresnelEllipse == old(fresnelEllipse)
      ensures nextTowerId == old(nextTowerId) && nextLinkId == old(nextLinkId)
    {
      RemoveTowerKeepsConsistent(towers, links, nextTowerId, nextLinkId, id);
      towers := Filter(towers, TowerOtherThan(id));
      links := Filter(links, LinkAvoiding(id));
    }

    /** `removeLink(id)`: drop the link with that id, keeping the others in order, and
        clear the Fresnel overlay and the selected link. */
    method RemoveLink(id: Id)
      requires Valid()
      modifies this
      ensures Valid()
      ensures old(LinksResolved()) ==> LinksResolved()
      ensures links == Filter(old(links), LinkOtherThan(id))
      ensures fresnelEllipse == None && selectedLinkId == None
      ensures towers == old(towers) && selectedTowerId == old(selectedTowerId)
      ensures editingFreq == old(editingFreq) && editingName == old(editingName)
      ensures nextTowerId == old(nextTowerId) && nextLinkId == old(nextLinkId)
    {
      RemoveLinkKeepsConsistent(towers, links, nextTowerId, nextLinkId, id);
      links := Filter(links, LinkOtherThan(id));
      fresnelEllipse := None;
      selectedLinkId := None;
    }

    /** A click on a row of the tower list selects that tower. */
    method SelectTower(id: Id)
      requires Valid()
      modifies this
      ensures Valid()
      ensures selectedTowerId == Some(id)
      ensures towers == old(towers) && links == old(links)
      ensures nextTowerId == old(nextTowerId) && nextLinkId == old(nextLinkId)
      ensures editingFreq == old(editingFreq) && editingName == old(editingName)
      ensures selectedLinkId == old(selectedLinkId) && fresnelEllipse == old(fresnelEllipse)
    {
      selectedTowerId := Some(id);
    }

    /** The popup's Edit button: like `openEditTower`, but the name is copied as it
        is, with no default for an empty name. */
    method EditFromPopup(tower: Tower, format: real -> string)
      requires Valid()
      modifies this
      ensures Valid()
      ensures selectedTowerId == Some(tower.id)
      ensures editingFreq == format(tower.freqGHz) && editingName == tower.name
      ensures towers == old(towers) && links == old(links)
      ensures nextTowerId == old(nextTowerId) && nextLinkId == old(nextLinkId)
      ensures selectedLinkId == old(selectedLinkId) && fresnelEllipse == old(fresnelEllipse)
    {
      selectedTowerId := Some(tower.id);
      editingFreq := format(tower.freqGHz);
      editingName := tower.name;
    }

    /** Typing in the name field. */
    method SetEditingName(text: string)
      requires Valid()
      modifies this
      ensures Valid()
      ensures editingName == text && editingFreq == old(editingFreq)
      ensures towers == old(towers) && links == old(links) && selectedTowerId == old(selectedTowerId)
      ensures nextTowerId == old(nextTowerId) && nextLinkId == old(nextLinkId)
      ensures selectedLinkId == old(selectedLinkId) && fresnelEllipse == old(fresnelEllipse)
    {
      editingName := text;
    }

    /** Typing in the frequency field. */
    method SetEditingFreq(text: string)
      requires Valid()
      modifies this
      ensures Valid()
      ensures editingFreq == text && editingName == old(editingName)
      ensures towers == old(towers) && links == old(links) && selectedTowerId == old(selectedTowerId)
      ensures nextTowerId == old(nextTowerId) && nextLinkId == old(nextLinkId)
      ensures selectedLinkId == old(selectedLinkId) && fresnelEllipse == old(fresnelEllipse)
    {
      editingFreq := text;
    }

    /** The edit panel's Cancel button: clear the selection and both edit fields,
        changing no tower. */
    method CancelEdit()
      requires Valid()
      modifies this
      ensures Valid()
      ensures selectedTowerId == None && editingFreq == "" && editingName == ""
      ensures towers == old(towers) && links == old(links)
      ensures nextTowerId == old(nextTowerId) && nextLinkId == old(nextLinkId)
      ensures selectedLinkId == old(selectedLinkId) && fresnelEllipse == old(fresnelEllipse)
    {
      selectedTowerId := None;
      editingFreq := "";
      editingName := "";
    }

    /** Clicking the overlay or its Clear button: hide the Fresnel overlay and clear
        the selected link. */
    method ClearFresnel()
      requires Valid()
      modifies this
      ensures Valid()
      ensures fresnelEllipse == None && selectedLinkId == None
      ensures towers == old(towers) && links == old(links) && selectedTowerId == old(selectedTowerId)
      ensures nextTowerId == old(nextTowerId) && nextLinkId == old(nextLinkId)
      ensures editingFreq == old(editingFreq) && editingName == old(editingName)
    {
      fresnelEllipse := None;
      selectedLinkId := None;
    }
  }

  /** A client of the handlers: place two towers, link them, then try the same link
      the other way round. */
  method LinkingScenario(p: GeoPoint, q: GeoPoint)
  {
    var view := new MapView();
    view.HandleMapClick(p);
    view.HandleMapClick(q);
    var first, second := view.towers[0], view.towers[1];
    var c := view.HandleTowerClick(first);
    assert c == Selected;
    c := view.HandleTowerClick(second);
    assert view.towers == [first, second];
    assert Find(view.towers, 1) == Some(first);
    assert c == Linked && view.links == [Link(1, 1, 2)];
    c := view.HandleTowerClick(second);
    c := view.HandleTowerClick(first);
    assert Joins(view.links[0], 2, 1);
    assert c == AlreadyLinked && view.nextLinkId == 2;
  }
}
