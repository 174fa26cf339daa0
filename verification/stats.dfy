/** The per-tower statistics the map view derives from its lists (`towerStats`): how
    many links touch a tower and which frequencies the towers at their far ends use;
    how the handlers change the link counts; and the handshake identity that the
    counts over all towers add up to twice the number of links. */
module Stats {
  import opened Model
  import opened Seqs
  import opened Registry

  /** One entry of `towerStats`. */
  datatype TowerStat = TowerStat(linkCount: nat, connectedFreqs: set<real>)

  /** `links.filter(l => l.aId === id || l.bId === id).length` */
  function LinkCount(ls: seq<Link>, id: Id): (c: nat)
    ensures c <= |ls|
    ensures c == 0 <==> forall l :: l in ls ==> l.aId != id && l.bId != id
  {
    var touching := Filter(ls, Touching(id));
    assert touching != [] ==> touching[0] in touching;
    |touching|
  }

  /** The far end of a link seen from tower `id`: `l.aId === id ? l.bId : l.aId`. */
  function OtherEnd(l: Link, id: Id): (far: Id)
    ensures l.aId == id || l.bId == id ==> Joins(l, id, far)
  {
    if l.aId == id then l.bId else l.aId
  }

  /** `.map(l => towers.find(far end)).filter(t => t)`: the towers found at the far
      ends of the given links, dropping the ends that name no tower. */
  function FarEnds(ts: seq<Tower>, touching: seq<Link>, id: Id): (r: seq<Tower>)
    ensures forall t :: t in r <==> exists l :: l in touching && Find(ts, OtherEnd(l, id)) == Some(t)
  {
    if touching == [] then []
    else
      var found := match Find(ts, OtherEnd(touching[0], id)) case Some(t) => [t] case None => [];
      assert touching == [touching[0]] + touching[1..];
      found + FarEnds(ts, touching[1..], id)
  }

  /** `connectedFreqs`: the frequencies of the towers linked to tower `id`. */
  function ConnectedFreqs(ts: seq<Tower>, ls: seq<Link>, id: Id): (fs: set<real>)
    ensures forall f :: f in fs <==>
      exists l :: l in ls && (l.aId == id || l.bId == id) &&
        Find(ts, OtherEnd(l, id)).Some? && Find(ts, OtherEnd(l, id)).value.freqGHz == f
  {
    var far := FarEnds(ts, Filter(ls, Touching(id)), id);
    assert forall l :: l in Filter(ls, Touching(id)) <==> l in ls && (l.aId == id || l.bId == id);
    set t | t in far :: t.freqGHz
  }

  /** `towerStats`: one entry per tower id. */
  function TowerStats(ts: seq<Tower>, ls: seq<Link>): (stats: map<Id, TowerStat>)
    ensures stats.Keys == Ids(ts)
    ensures forall id :: id in stats ==> stats[id].linkCount <= |ls|
    ensures forall id :: id in stats ==>
              (stats[id].linkCount == 0 <==> forall l :: l in ls ==> l.aId != id && l.bId != id)
    ensures forall id, f :: id in stats ==>
              (f in stats[id].connectedFreqs <==>
                 exists l :: l in ls && (l.aId == id || l.bId == id) &&
                   Find(ts, OtherEnd(l, id)).Some? && Find(ts, OtherEnd(l, id)).value.freqGHz == f)
    ensures forall id, f :: id in stats && f in stats[id].connectedFreqs ==>
              exists t :: t in ts && t.freqGHz == f
  {
    map id | id in Ids(ts) :: TowerStat(LinkCount(ls, id), ConnectedFreqs(ts, ls, id))
  }

  /** With unique link ids, a tower's link count is the number of distinct links that
      have it at one end. */
  lemma LinkCountIsNumberOfLinks(ls: seq<Link>, id: Id)
    requires Pairwise(ls, DistinctLinkIds)
    ensures LinkCount(ls, id) == |set l | l in ls && (l.aId == id || l.bId == id)|
  {
    var touching := Filter(ls, Touching(id));
    FilterKeepsPairwise(ls, Touching(id), DistinctLinkIds);
    assert forall i, j :: 0 <= i < j < |touching| ==> touching[i] != touching[j] by {
      forall i, j | 0 <= i < j < |touching| ensures touching[i] != touching[j] {
        assert DistinctLinkIds(touching[i], touching[j]);
      }
    }
    DistinctElementsCount(touching);
    assert (set l | l in touching) == set l | l in ls && (l.aId == id || l.bId == id);
  }

  /** With unique link ids, the `linkCount` entry of a tower is the number of distinct
      links that have it at one end. */
  lemma TowerStatsLinkCount(ts: seq<Tower>, ls: seq<Link>, id: Id)
    requires Pairwise(ls, DistinctLinkIds) && id in Ids(ts)
    ensures id in TowerStats(ts, ls)
    ensures TowerStats(ts, ls)[id].linkCount == |set l | l in ls && (l.aId == id || l.bId == id)|
  {
    LinkCountIsNumberOfLinks(ls, id);
  }

  /** Appending a link adds one to the count of each tower it touches. */
  lemma LinkCountAppend(ls: seq<Link>, l: Link, id: Id)
    ensures LinkCount(ls + [l], id) == LinkCount(ls, id) + (if l.aId == id || l.bId == id then 1 else 0)
  {
    FilterAppend(ls, [l], Touching(id));
    assert Filter([l], Touching(id)) == (if Touching(id)(l) then [l] else []) by {
      assert [l][1..] == [];
    }
  }

  /** One step of a link count, for a non-empty list. */
  lemma LinkCountCons(ls: seq<Link>, x: Id)
    requires ls != []
    ensures LinkCount(ls, x) == (if ls[0].aId == x || ls[0].bId == x then 1 else 0) + LinkCount(ls[1..], x)
  {
    FilterCons(ls, Touching(x));
  }

  /** With no two links joining the same pair, the first link's pair is joined by no
      later link. */
  lemma HeadPairIsOnly(ls: seq<Link>, a: Id, b: Id)
    requires Pairwise(ls, DistinctPairs) && ls != [] && Joins(ls[0], a, b)
    ensures !LinkExists(ls[1..], a, b)
  {
  }

  /** With unique link ids, no later link has the first link's id. */
  lemma HeadIdIsOnly(ls: seq<Link>)
    requires Pairwise(ls, DistinctLinkIds) && ls != []
    ensures forall m :: m in ls[1..] ==> m.id != ls[0].id
  {
  }

  /** `removeTower(id)`: the removed tower has no link left, and a tower `x` loses one
      link exactly when a link joined it to `id` (there is at most one such link). */
  lemma {:induction false} LinkCountAfterRemoveTower(ls: seq<Link>, id: Id, x: Id)
    requires Pairwise(ls, DistinctPairs)
    ensures LinkCount(Filter(ls, LinkAvoiding(id)), id) == 0
    ensures x != id ==>
      LinkCount(Filter(ls, LinkAvoiding(id)), x) + (if LinkExists(ls, id, x) then 1 else 0) == LinkCount(ls, x)
  {
    FilterKeepsNone(Filter(ls, LinkAvoiding(id)), Touching(id));
    if ls != [] && x != id {
      var l, tail := ls[0], ls[1..];
      var kept, keptTail := Filter(ls, LinkAvoiding(id)), Filter(tail, LinkAvoiding(id));
      PairwiseTail(ls, DistinctPairs);
      LinkCountAfterRemoveTower(tail, id, x);
      LinkCountCons(ls, x);
      FilterCons(ls, LinkAvoiding(id));
      assert LinkExists(ls, id, x) <==> Joins(l, id, x) || LinkExists(tail, id, x) by {
        ElementsOfCons(ls);
      }
      if LinkAvoiding(id)(l) {
        assert kept == [l] + keptTail;
        LinkCountCons(kept, x);
        assert kept[1..] == keptTail;
      } else if Joins(l, id, x) {
        HeadPairIsOnly(ls, id, x);
      }
    }
  }

  /** `removeLink(lid)`: with unique link ids, a tower loses one link exactly when the
      removed link touched it. */
  lemma {:induction false} LinkCountAfterRemoveLink(ls: seq<Link>, lid: Id, x: Id)
    requires Pairwise(ls, DistinctLinkIds)
    ensures LinkCount(Filter(ls, LinkOtherThan(lid)), x) +
            (if exists l :: l in ls && l.id == lid && (l.aId == x || l.bId == x) then 1 else 0)
            == LinkCount(ls, x)
  {
    if ls != [] {
      var l, tail := ls[0], ls[1..];
      var kept, keptTail := Filter(ls, LinkOtherThan(lid)), Filter(tail, LinkOtherThan(lid));
      PairwiseTail(ls, DistinctLinkIds);
      LinkCountAfterRemoveLink(tail, lid, x);
      LinkCountCons(ls, x);
      FilterCons(ls, LinkOtherThan(lid));
      ElementsOfCons(ls);
      if LinkOtherThan(lid)(l) {
        assert kept == [l] + keptTail;
        LinkCountCons(kept, x);
        assert kept[1..] == keptTail;
      } else {
        HeadIdIsOnly(ls);
      }
    }
  }

  /** The sum of `towerStats[t.id].linkCount` over the tower list. */
  function SumLinkCounts(ts: seq<Tower>, ls: seq<Link>): nat
  {
    if ts == [] then 0 else LinkCount(ls, ts[0].id) + SumLinkCounts(ts[1..], ls)
  }

  /** How many towers of `ts` carry the id `x`. */
  function IdCount(ts: seq<Tower>, x: Id): nat
  {
    if ts == [] then 0 else (if ts[0].id == x then 1 else 0) + IdCount(ts[1..], x)
  }

  lemma {:induction false} SumLinkCountsAppend(ts: seq<Tower>, ls: seq<Link>, l: Link)
    requires l.aId != l.bId
    ensures SumLinkCounts(ts, ls + [l]) == SumLinkCounts(ts, ls) + IdCount(ts, l.aId) + IdCount(ts, l.bId)
  {
    if ts != [] {
      LinkCountAppend(ls, l, ts[0].id);
      SumLinkCountsAppend(ts[1..], ls, l);
    }
  }

  lemma {:induction false} SumLinkCountsNoLinks(ts: seq<Tower>)
    ensures SumLinkCounts(ts, []) == 0
  {
    if ts != [] {
      SumLinkCountsNoLinks(ts[1..]);
    }
  }

  /** With unique tower ids, a registered id is carried by exactly one tower. */
  lemma {:induction false} IdCountRegistered(ts: seq<Tower>, x: Id)
    requires Pairwise(ts, DistinctTowerIds)
    ensures IdCount(ts, x) == (if x in Ids(ts) then 1 else 0)
  {
    if ts != [] {
      var tail := ts[1..];
      assert ts == [ts[0]] + tail;
      PairwiseTail(ts, DistinctTowerIds);
      IdCountRegistered(tail, x);
      if ts[0].id == x {
        assert x !in Ids(tail) by {
          forall t | t in tail ensures t.id != x {
            var k :| 0 <= k < |tail| && tail[k] == t;
            assert DistinctTowerIds(ts[0], ts[k + 1]);
          }
        }
      } else {
        assert x in Ids(ts) <==> x in Ids(tail);
      }
    }
  }

  /** Handshake identity: when tower ids are unique, no link is a self-link and every
      link's ends are towers, the link counts of all towers add up to twice the number
      of links. */
  lemma {:induction false} Handshake(ts: seq<Tower>, ls: seq<Link>)
    requires Pairwise(ts, DistinctTowerIds)
    requires forall l :: l in ls ==> l.aId != l.bId
    requires Resolved(ts, ls)
    ensures SumLinkCounts(ts, ls) == 2 * |ls|
  {
    if ls == [] {
      SumLinkCountsNoLinks(ts);
    } else {
      var init, l := ls[..|ls| - 1], ls[|ls| - 1];
      assert ls == init + [l];
      assert l in ls;
      Handshake(ts, init);
      SumLinkCountsAppend(ts, init, l);
      IdCountRegistered(ts, l.aId);
      IdCountRegistered(ts, l.bId);
    }
  }

  /** Every link joins two towers of equal frequency (as far as both ends are found). */
  ghost predicate FrequencyMatched(ts: seq<Tower>, ls: seq<Link>)
  {
    forall l :: l in ls && Find(ts, l.aId).Some? && Find(ts, l.bId).Some? ==>
      Find(ts, l.aId).value.freqGHz == Find(ts, l.bId).value.freqGHz
  }

  /** A link created between two registered towers of equal frequency keeps every link
      frequency-matched (no later edit is taken into account). */
  lemma AddLinkKeepsFrequencyMatched(ts: seq<Tower>, ls: seq<Link>, n: Id, a: Tower, b: Tower)
    requires FrequencyMatched(ts, ls) && Pairwise(ts, DistinctTowerIds)
    requires a in ts && b in ts && a.freqGHz == b.freqGHz
    ensures FrequencyMatched(ts, ls + [Link(n, a.id, b.id)])
  {
    FindRegistered(ts, a);
    FindRegistered(ts, b);
  }

  /** While every link is frequency-matched, the only frequency connected to a tower is
      its own. */
  lemma ConnectedFreqsOfMatched(ts: seq<Tower>, ls: seq<Link>, t: Tower)
    requires FrequencyMatched(ts, ls) && Pairwise(ts, DistinctTowerIds) && t in ts
    ensures ConnectedFreqs(ts, ls, t.id) <= {t.freqGHz}
  {
    FindRegistered(ts, t);
  }

  /** `saveFreq` can leave a link joining towers of different frequencies: matching is
      checked only when a link is created. Retuning one end of a matched link to any
      other nonzero frequency unmatches it. */
  lemma EditCanUnmatchFrequencies(a: Tower, b: Tower, n: Id, v: real, name: string)
    requires a.id != b.id && a.freqGHz == b.freqGHz && v != 0.0 && v != a.freqGHz
    ensures FrequencyMatched([a, b], [Link(n, a.id, b.id)])
    ensures !FrequencyMatched(ApplyEdit([a, b], Some(a.id), Number(v), name), [Link(n, a.id, b.id)])
  {
    var l := Link(n, a.id, b.id);
    assert FrequencyMatched([a, b], [l]) by {
      FindInPair(a, b);
    }
    var a' := a.(freqGHz := v, name := name);
    assert ApplyEdit([a, b], Some(a.id), Number(v), name) == [a', b] by {
      assert [a, b][1..] == [b];
    }
    assert !FrequencyMatched([a', b], [l]) by {
      FindInPair(a', b);
      assert l in [l];
    }
  }

  lemma FindInPair(a: Tower, b: Tower)
    requires a.id != b.id
    ensures Find([a, b], a.id) == Some(a) && Find([a, b], b.id) == Some(b)
  {
    assert [a, b][1..] == [b];
  }
}
