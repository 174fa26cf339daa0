# RF planner map view: tower and link registry

This project models the state machine behind the map view of the RF planner
(`src/components/MapView.jsx`). The user places radio towers on a map and links
pairs of towers that use the same frequency. Towers can be renamed and retuned,
and towers and links can be removed. The view also derives per-tower statistics:
how many links touch each tower, and which frequencies the linked towers use.

The model has five modules:

- `Seqs` (`seqs.dfy`): `Filter`, which is JavaScript's `Array.prototype.filter`.
  It keeps exactly the matching elements, in their original order, and keeps any
  property that held of every ordered pair (unique ids, say).
- `Model` (`model.dfy`): towers, links, the Fresnel overlay record, and the result
  of `parseFloat`. Also the decimal text of an id used in the default name
  `Tower <id>`, with its round trip.
- `Registry` (`registry.dfy`): lookup by id (`find`), the filters and the map the
  handlers apply, and the invariants the handlers keep:
  - tower ids are unique, at least 1, and below the tower counter;
  - link ids are unique, at least 1, and below the link counter;
  - no link joins a tower to itself;
  - no two links join the same pair of towers, in either orientation.

  It holds one lemma per handler showing that the handler keeps these invariants.
  The tests the handlers pass to `filter` are named functions returning lambdas:
  `Touching` (lines 105 and 108), `TowerOtherThan` and `LinkAvoiding` (lines 173-174)
  and `LinkOtherThan` (line 177). They are stated through the lemmas about
  `RemoveTower`, `RemoveLink` and the link counts.
  A second property, "every link's ends are towers of the list", is tracked
  separately (see `HandleTowerClick` below).
- `Stats` (`stats.dfy`): `towerStats` (link count and connected frequencies) and
  how each handler changes the link counts. It also proves the handshake identity:
  the link counts of all towers add up to twice the number of links.
- `MapViewState` (`map_view.dfy`): the class `MapView`. Its fields are the view's
  state: the two lists, the selected tower and link, the two edit fields, the
  overlay and the two id counters. It has one method per handler, and each method
  states the whole new state.

The handlers run one event at a time. The state updates a handler requests are
applied together before the next event.

Frequencies are `real`. The code only compares them for inequality and replaces
them. `parseFloat` and `String(number)` are JavaScript built-ins, so the methods
that use them take them as function parameters (`parseFloat: string -> Parsed`,
`format: real -> string`). A parsed value is a number or `NotANumber`.
`parseFloat(text) || old` keeps the old frequency when the parse gives zero or NaN.

Equal frequency is checked only when a link is created. `saveFreq` can later retune
one end of a link. So "every link joins towers of equal frequency" is not an
invariant of the view. The model states it as a postcondition of link creation
(`HandleTowerClick`, `AddLinkKeepsFrequencyMatched`). `EditCanUnmatchFrequencies`
gives a concrete state where an edit breaks it.

The code stores any nonzero parsed frequency, including a negative one. A positive
frequency is needed only by the Fresnel computation, which is not part of this
model. The model follows the code here.

`removeTower` does not clear the tower selection. A later tower click with that
stale selection takes the "selected tower not found" branch, and the model keeps
this behaviour.

## Model

| member | source | states |
|---|---|---|
| `Seqs.Filter` | src/components/MapView.jsx:173-177 | The result keeps exactly the elements that pass the test, and is never longer than the input. |
| `Seqs.FilterCounts` | src/components/MapView.jsx:173-177 | Every occurrence of an element that passes the test is kept, and every occurrence of one that fails is dropped. So the length of a filtered list counts repeated entries too. |
| `Seqs.FilterIsSubsequence` | src/components/MapView.jsx:172-180 | The filtered list is a subsequence of the input, so the kept towers and links stay in their original order. |
| `Seqs.FilterKeepsPairwise` | src/components/MapView.jsx:172-180 | Filtering keeps any property of every ordered pair, such as distinct ids or distinct tower pairs. |
| `Model.DecimalText` | src/components/MapView.jsx:124 | The text of an id in a template literal is a non-empty string of decimal digits, with no leading zero unless the id is 0. |
| `Model.DecimalTextRoundTrip` | src/components/MapView.jsx:124 | The decimal text of an id in a default name reads back as that id. |
| `Model.DefaultNameInjective` | src/components/MapView.jsx:124 | Towers with different ids get different default names `Tower <id>`. |
| `Model.DefaultName` | src/components/MapView.jsx:124 | The default name is `Tower ` followed by the decimal text of the id: its canonical digits, with no leading zero, which read back as the id. |
| `Model.NewTower` | src/components/MapView.jsx:120-125 | A placed tower has the counter value as id, the clicked position, 5 GHz and the default name `Tower ` plus the decimal text of the id, whose digits read back as its id. |
| `Model.EditedFreq` | src/components/MapView.jsx:165 | The edited frequency is either the old one or the parsed number. A parsed nonzero number always replaces the old value. A zero or NaN parse keeps it, so a nonzero frequency never becomes zero. |
| `Registry.Find` | src/components/MapView.jsx:139 | The lookup finds nothing exactly when no tower has the id. Otherwise it returns the first tower in the list with that id. |
| `Registry.LinkExistsEitherOrientation` | src/components/MapView.jsx:147-148 | The duplicate check finds a link between two towers whichever way round it was made, and it always finds a link that was just added. |
| `Registry.FindRegistered` | src/components/MapView.jsx:139 | With unique ids, looking up a registered tower's id returns that tower. |
| `Registry.AddTowerKeepsConsistent` | src/components/MapView.jsx:119-127 | A new tower's id (the counter value) is not yet in use. Appending the tower and advancing the counter keeps all invariants and keeps link ends resolved. |
| `Registry.AddLinkKeepsConsistent` | src/components/MapView.jsx:148-154 | Appending a link between two different towers that no link joins yet, with the counter as id, keeps all invariants. |
| `Registry.RemoveTowerKeepsConsistent` | src/components/MapView.jsx:172-175 | Removing a tower and the links touching it keeps the invariants and takes exactly that id out of the tower ids. It leaves no dangling link end if there was none before. |
| `Registry.RemoveLinkKeepsConsistent` | src/components/MapView.jsx:176-177 | Removing a link by id keeps the invariants and keeps link ends resolved. |
| `Registry.ApplyEdit` | src/components/MapView.jsx:165 | Only the tower whose id is selected changes. It takes the new name, and takes the parsed frequency only when that is a nonzero number. Ids, positions and every other tower stay the same. |
| `Registry.EditKeepsConsistent` | src/components/MapView.jsx:164-169 | An edit keeps the set of tower ids, the invariants, and resolved link ends. |
| `Stats.LinkCount` | src/components/MapView.jsx:105 | A tower's link count is at most the number of links. It is zero exactly when no link has the tower at either end. |
| `Stats.OtherEnd` | src/components/MapView.jsx:109 | For a link touching the tower, the far end is the tower at the link's other end: the link joins the tower and the far end. |
| `Stats.FarEnds` | src/components/MapView.jsx:107-110 | The towers found at the far ends of the given links: exactly the found lookups of the other end of each link. |
| `Stats.ConnectedFreqs` | src/components/MapView.jsx:106-112 | A frequency is connected to a tower exactly when some link touches that tower and the tower at the link's other end exists and has that frequency. |
| `Stats.TowerStats` | src/components/MapView.jsx:101-116 | There is one entry per tower id. An entry's link count is at most the number of links, and is zero exactly when no link touches the tower. A frequency is in an entry's connected frequencies exactly when some link touching the tower has a far end that is a tower of the list with that frequency. Every connected frequency belongs to some tower. |
| `Stats.TowerStatsLinkCount` | src/components/MapView.jsx:105 | With unique link ids, a tower's `linkCount` entry equals the number of distinct links that have the tower at one end. |
| `Stats.LinkCountIsNumberOfLinks` | src/components/MapView.jsx:105 | With unique link ids, a tower's link count is the number of distinct links with that tower at either end. |
| `Stats.LinkCountAppend` | src/components/MapView.jsx:105 | Appending a link, as a successful link attempt does (line 153), adds one to the count of each tower it touches and nothing to any other. |
| `Stats.LinkCountAfterRemoveTower` | src/components/MapView.jsx:174 | After a tower is removed, no link touches it. Another tower loses exactly one link when a link joined it to the removed tower, and none otherwise. |
| `Stats.LinkCountAfterRemoveLink` | src/components/MapView.jsx:177 | With unique link ids, removing a link lowers the count of each tower it touched by one and leaves every other count unchanged. |
| `Stats.Handshake` | src/components/MapView.jsx:101-116 | With unique tower ids, no self-links and resolved ends, the link counts of all towers add up to twice the number of links. |
| `Stats.AddLinkKeepsFrequencyMatched` | src/components/MapView.jsx:142-153 | A link created between two registered towers of equal frequency keeps every link frequency-matched. |
| `Stats.ConnectedFreqsOfMatched` | src/components/MapView.jsx:106-112 | While every link is frequency-matched, the only frequency connected to a tower is its own. |
| `Stats.EditCanUnmatchFrequencies` | src/components/MapView.jsx:165 | An edit can leave a link joining towers of different frequencies, so matching is not an invariant of the view. |
| `MapViewState.MapView.constructor` | src/components/MapView.jsx:88-98 | The view starts with no towers or links, nothing selected, empty edit fields, no overlay, and both counters at 1. |
| `MapViewState.MapView.HandleMapClick` | src/components/MapView.jsx:119-127 | Appends exactly one tower: a fresh id equal to the counter, the clicked position, 5 GHz, and the name `Tower <id>`. The counter goes up by one and nothing else changes. |
| `MapViewState.MapView.HandleTowerClick` | src/components/MapView.jsx:130-156 | With nothing selected, a click selects the tower. A click on the selected tower deselects it. Otherwise the click attempts a link, and every attempt leaves nothing selected. The attempt fails when the selected tower is missing, when the frequencies differ, or when a link exists in either orientation. On success it appends one link from the selected tower to the clicked one, with the counter as id, and the counter goes up by one. Towers never change. |
| `MapViewState.MapView.OpenEditTower` | src/components/MapView.jsx:159-163 | Loads the tower's frequency text and name into the edit fields (the default name when the name is empty) and selects the tower. |
| `MapViewState.MapView.SaveFreq` | src/components/MapView.jsx:164-169 | The towers become the edit map of the old towers, the parsed text of the frequency field, and the name field. Then the selection and both edit fields are cleared. Links and ids are unchanged. |
| `MapViewState.MapView.RemoveTower` | src/components/MapView.jsx:172-175 | Drops the tower with that id and exactly the links with that id at either end, in order. The selection is not touched. |
| `MapViewState.MapView.RemoveLink` | src/components/MapView.jsx:176-180 | Drops only the link with that id, and clears the Fresnel overlay and the selected link. |
| `MapViewState.MapView.SelectTower` | src/components/MapView.jsx:361 | A click on a row of the tower list selects that tower and changes nothing else. |
| `MapViewState.MapView.EditFromPopup` | src/components/MapView.jsx:265 | The popup's Edit button selects the tower and copies its frequency text and name as they are. |
| `MapViewState.MapView.SetEditingName` | src/components/MapView.jsx:408 | Typing in the name field replaces only that field. |
| `MapViewState.MapView.SetEditingFreq` | src/components/MapView.jsx:412 | Typing in the frequency field replaces only that field. |
| `MapViewState.MapView.CancelEdit` | src/components/MapView.jsx:416 | Cancel clears the selection and both edit fields, and changes no tower. |
| `MapViewState.MapView.ClearFresnel` | src/components/MapView.jsx:429 | Clear hides the overlay and clears the selected link. Clicking the overlay does the same (lines 310 and 321). |

Every `MapView` method also keeps `Valid()`, the invariants above. Every method
except `HandleTowerClick` keeps `LinksResolved()`. `HandleTowerClick` keeps it when
the clicked tower is in the list, which is always the case for a marker on the map
(lines 244-251).

## Left out

- `haversine` (lines 38-46) is not modelled. It is floating-point trigonometry (sin, cos, atan2, sqrt).
- `computeEllipsePoints` and its Web-Mercator `project`/`unproject` (lines 49-85) are not modelled. They use floating-point log, tan, exp and atan, and a rotation.
- The Fresnel radius (lines 200-207) is not modelled. It is a floating-point square root.
- `handleLinkClick` (lines 183-231) is not modelled: it is asynchronous, does network I/O, and computes floating-point geometry. It is the only handler that sets `selectedLinkId` and `fresnelEllipse`, so in this model those two fields are only ever cleared. The `loadingEllipse` flag is left out with it.
- The elevation lookup (`axios.post`, lines 209-225) is not modelled. It is network I/O, and its result is discarded.
- The `showLinkDistance` toggle (lines 95, 338-342) is not modelled. It only affects rendering.
- Rendering is not modelled: markers, icons, tooltips, the SVG overlay, distance formatting, and all of `src/App.jsx`.
- `event.originalEvent.preventDefault()` (line 131) is not modelled. It changes no state.
- `parseFloat` and `String(number)` are JavaScript built-ins. They are taken as parameters and not defined in the model.
- Floating point is not modelled. Frequencies and positions are exact reals, so rounding is not captured, and neither are the infinite values `parseFloat` can return.
- Ids are unbounded naturals. A JavaScript number loses integer precision above 2^53, and the model does not capture that.
- React's scheduling of state updates is not modelled. The model applies a handler's updates in one step. It does not capture updater functions run twice in development mode. `nextLinkId.current++` sits inside such an updater (line 153).
- `HandleTowerClick` accepts any tower value, as the handler does. The `!b` test (line 141) cannot fail for a tower value, so the model has no branch for it.
