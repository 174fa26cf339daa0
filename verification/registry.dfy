/** The tower and link lists of the map view: lookup by id, the filters and the map
    the handlers apply to them, the invariants the handlers keep, and one lemma per
    handler showing that it keeps them. */
module Registry {
  import opened Model
  import opened Seqs

  /** The ids of the towers in `ts`. */
  function Ids(ts: seq<Tower>): set<Id>
  {
    set t | t in ts :: t.id
  }

  /** `towers.find(x => x.id === id)`: the first tower with that id, if any. */
  function Find(ts: seq<Tower>, id: Id): (r: Option<Tower>)
    ensures r.None? <==> id !in Ids(ts)
    ensures r.Some? ==> r.value.id == id && r.value in ts
    ensures r.Some? ==> exists i :: 0 <= i < |ts| && ts[i] == r.value &&
                          forall j :: 0 <= j < i ==> ts[j].id != id
  {
    if ts == [] then None
    else if ts[0].id == id then Some(ts[0])
    else
      var r := Find(ts[1..], id);
      assert ts == [ts[0]] + ts[1..];
      assert r.Some? ==> exists i :: 1 <= i < |ts| && ts[i] == r.value &&
                                     forall j :: 0 <= j < i ==> ts[j].id != id by {
        if r.Some? {
          var k :| 0 <= k < |ts[1..]| && ts[1..][k] == r.value &&
                   forall j :: 0 <= j < k ==> ts[1..][j].id != id;
          assert ts[k + 1] == r.value;
          assert forall j :: 0 <= j < k + 1 ==> ts[j].id != id by {
            forall j | 0 <= j < k + 1 ensures ts[j].id != id {
              if j > 0 { assert ts[j] == ts[1..][j - 1]; }
            }
          }
        }
      }
      r
  }

  /** The filter of `removeTower(id)` on towers: `t.id !== id`. */
  function TowerOtherThan(id: Id): Tower -> bool
  {
    (t: Tower) => t.id != id
  }

  /** The filter of `removeTower(id)` on links: `l.aId !== id && l.bId !== id`. */
  function LinkAvoiding(id: Id): Link -> bool
  {
    (l: Link) => l.aId != id && l.bId != id
  }

  /** The filter of `removeLink(id)`: `l.id !== id`. */
  function LinkOtherThan(id: Id): Link -> bool
  {
    (l: Link) => l.id != id
  }

  /** `l.aId === id || l.bId === id`: the link has the tower `id` at one end. */
  function Touching(id: Id): Link -> bool
  {
    (l: Link) => l.aId == id || l.bId == id
  }

  /** The link joins towers `a` and `b`, in either orientation. */
  predicate Joins(l: Link, a: Id, b: Id)
  {
    (l.aId == a && l.bId == b) || (l.aId == b && l.bId == a)
  }

  /** The duplicate check of a link attempt: some link already joins `a` and `b`. */
  predicate LinkExists(ls: seq<Link>, a: Id, b: Id)
  {
    exists l :: l in ls && Joins(l, a, b)
  }

  /** The duplicate check looks at both orientations: it finds a link from `a` to `b`
      as well as one from `b` to `a`, and it always finds a link just added. */
  lemma LinkExistsEitherOrientation(ls: seq<Link>, n: Id, a: Id, b: Id)
    ensures LinkExists(ls, a, b) <==> LinkExists(ls, b, a)
    ensures LinkExists(ls + [Link(n, a, b)], b, a)
  {
    assert Link(n, a, b) in ls + [Link(n, a, b)];
  }

  function DistinctTowerIds(s: Tower, t: Tower): bool { s.id != t.id }

  function DistinctLinkIds(k: Link, l: Link): bool { k.id != l.id }

  function DistinctPairs(k: Link, l: Link): bool { !Joins(l, k.aId, k.bId) }

  /** What every handler keeps: ids are unique and below their counters, no link
      joins a tower to itself, and no two links join the same pair of towers. */
  ghost predicate Consistent(ts: seq<Tower>, ls: seq<Link>, nextTowerId: Id, nextLinkId: Id)
  {
    && Pairwise(ts, DistinctTowerIds)
    && (forall t :: t in ts ==> 1 <= t.id < nextTowerId)
    && Pairwise(ls, DistinctLinkIds)
    && (forall l :: l in ls ==> 1 <= l.id < nextLinkId)
    && (forall l :: l in ls ==> l.aId != l.bId)
    && Pairwise(ls, DistinctPairs)
  }

  /** Every link's two ends are towers of the list. */
  ghost predicate Resolved(ts: seq<Tower>, ls: seq<Link>)
  {
    forall l :: l in ls ==> l.aId in Ids(ts) && l.bId in Ids(ts)
  }

  /** With unique ids, looking up a tower's id finds that very tower. */
  lemma FindRegistered(ts: seq<Tower>, t: Tower)
    requires Pairwise(ts, DistinctTowerIds)
    requires t in ts
    ensures Find(ts, t.id) == Some(t)
  {
  }

  /** Placing a tower (`handleMapClick`): its id is new, and the invariants hold with the
      counter advanced. */
  lemma AddTowerKeepsConsistent(ts: seq<Tower>, ls: seq<Link>, nt: Id, nl: Id, at: GeoPoint)
    requires Consistent(ts, ls, nt, nl)
    ensures nt !in Ids(ts)
    ensures 1 <= nt ==> Consistent(ts + [NewTower(nt, at)], ls, nt + 1, nl)
    ensures Resolved(ts, ls) ==> Resolved(ts + [NewTower(nt, at)], ls)
  {
  }

  /** A successful link attempt keeps the invariants when the two ends differ and
      no link joins them yet; it keeps `Resolved` when both ends are towers. */
  lemma AddLinkKeepsConsistent(ts: seq<Tower>, ls: seq<Link>, nt: Id, nl: Id, a: Id, b: Id)
    requires Consistent(ts, ls, nt, nl) && 1 <= nl
    requires a != b && !LinkExists(ls, a, b)
    ensures Consistent(ts, ls + [Link(nl, a, b)], nt, nl + 1)
    ensures Resolved(ts, ls) && a in Ids(ts) && b in Ids(ts) ==> Resolved(ts, ls + [Link(nl, a, b)])
  {
    var ls' := ls + [Link(nl, a, b)];
    forall i, j | 0 <= i < j < |ls'|
      ensures DistinctLinkIds(ls'[i], ls'[j]) && DistinctPairs(ls'[i], ls'[j])
    {
      if j < |ls| {
        assert DistinctLinkIds(ls[i], ls[j]) && DistinctPairs(ls[i], ls[j]);
      } else {
        assert ls'[i] in ls;
        assert !Joins(ls'[i], a, b);
      }
    }
  }

  /** `removeTower(id)` keeps the invariants, drops the id, and leaves no link pointing
      at a missing tower when none did before. */
  lemma RemoveTowerKeepsConsistent(ts: seq<Tower>, ls: seq<Link>, nt: Id, nl: Id, id: Id)
    requires Consistent(ts, ls, nt, nl)
    ensures Consistent(Filter(ts, TowerOtherThan(id)), Filter(ls, LinkAvoiding(id)), nt, nl)
    ensures Ids(Filter(ts, TowerOtherThan(id))) == Ids(ts) - {id}
    ensures Resolved(ts, ls) ==> Resolved(Filter(ts, TowerOtherThan(id)), Filter(ls, LinkAvoiding(id)))
  {
    var ts' := Filter(ts, TowerOtherThan(id));
    FilterKeepsPairwise(ts, TowerOtherThan(id), DistinctTowerIds);
    FilterKeepsPairwise(ls, LinkAvoiding(id), DistinctLinkIds);
    FilterKeepsPairwise(ls, LinkAvoiding(id), DistinctPairs);
    assert Ids(ts') == Ids(ts) - {id} by {
      forall x | x in Ids(ts) - {id} ensures x in Ids(ts') {
        var t :| t in ts && t.id == x;
        assert TowerOtherThan(id)(t);
      }
    }
  }

  /** `removeLink(id)` keeps the invariants and `Resolved`. */
  lemma RemoveLinkKeepsConsistent(ts: seq<Tower>, ls: seq<Link>, nt: Id, nl: Id, id: Id)
    requires Consistent(ts, ls, nt, nl)
    ensures Consistent(ts, Filter(ls, LinkOtherThan(id)), nt, nl)
    ensures Resolved(ts, ls) ==> Resolved(ts, Filter(ls, LinkOtherThan(id)))
  {
    FilterKeepsPairwise(ls, LinkOtherThan(id), DistinctLinkIds);
    FilterKeepsPairwise(ls, LinkOtherThan(id), DistinctPairs);
  }

  /** The map of `saveFreq`: the tower whose id is the selected one gets the new name,
      and the parsed frequency unless that is zero or NaN; every other tower is kept. */
  function ApplyEdit(ts: seq<Tower>, selected: Option<Id>, parsed: Parsed, name: string): (r: seq<Tower>)
    ensures |r| == |ts|
    ensures forall i :: 0 <= i < |ts| ==> r[i].id == ts[i].id && r[i].latlng == ts[i].latlng
    ensures forall i :: 0 <= i < |ts| && selected != Some(ts[i].id) ==> r[i] == ts[i]
    ensures forall i :: 0 <= i < |ts| && selected == Some(ts[i].id) ==>
              r[i].name == name &&
              r[i].freqGHz == (if parsed.Number? && parsed.value != 0.0 then parsed.value else ts[i].freqGHz)
  {
    if ts == [] then []
    else
      var t := ts[0];
      var t' := if selected == Some(t.id) then t.(freqGHz := EditedFreq(parsed, t.freqGHz), name := name) else t;
      var rest := ApplyEdit(ts[1..], selected, parsed, name);
      assert forall i :: 1 <= i < |ts| ==> ([t'] + rest)[i] == rest[i - 1] && ts[i] == ts[1..][i - 1];
      [t'] + rest
  }

  /** `saveFreq` changes no id, so it keeps the invariants and `Resolved`. */
  lemma EditKeepsConsistent(ts: seq<Tower>, ls: seq<Link>, nt: Id, nl: Id, selected: Option<Id>, parsed: Parsed, name: string)
    requires Consistent(ts, ls, nt, nl)
    ensures Ids(ApplyEdit(ts, selected, parsed, name)) == Ids(ts)
    ensures Consistent(ApplyEdit(ts, selected, parsed, name), ls, nt, nl)
    ensures Resolved(ts, ls) ==> Resolved(ApplyEdit(ts, selected, parsed, name), ls)
  {
    var ts' := ApplyEdit(ts, selected, parsed, name);
    assert Ids(ts') == Ids(ts) by {
      forall x | x in Ids(ts) ensures x in Ids(ts') {
        var i :| 0 <= i < |ts| && ts[i].id == x;
        assert ts'[i] in ts';
      }
      forall x | x in Ids(ts') ensures x in Ids(ts) {
        var i :| 0 <= i < |ts'| && ts'[i].id == x;
        assert ts[i] in ts;
      }
    }
    forall i, j | 0 <= i < j < |ts'| ensures DistinctTowerIds(ts'[i], ts'[j]) {
      assert DistinctTowerIds(ts[i], ts[j]);
    }
    forall t | t in ts' ensures 1 <= t.id < nt {
      var i :| 0 <= i < |ts'| && ts'[i] == t;
      assert ts[i] in ts;
    }
  }
}
