/** The population (`population.py`): organisms are grouped into species by their genetic
    difference to species representatives, the compatibility threshold adapts towards a
    target species count, each species can be culled to its elite, and champions and
    challengers are picked by fitness. */
module PopulationModel {
  import opened NeatTypes
  import opened Seqs
  import opened OrganismModel

  /** The configuration values the population reads from `Constants`. */
  datatype Settings = Settings(
    speciesCompatThreshInitial: real,
    speciesCompatModifier: real,
    speciesCountTarget: int,
    speciesElitePercentage: real,
    numChampionParasites: nat,
    numHallOfFameParasites: nat)

  function Min(a: int, b: int): int {
    if a <= b then a else b
  }

  /** Python's `int(x)` on a float: truncation toward zero. */
  function Trunc(x: real): (t: int)
    ensures x >= 0.0 ==> t as real <= x < t as real + 1.0
    ensures x < 0.0 ==> t as real - 1.0 < x <= t as real
  {
    if x >= 0.0 then x.Floor else -((-x).Floor)
  }

  // ---------------------------------------------------------------- fitness order

  /** Every element's key is at least that of every element after it. */
  predicate NonIncreasingBy<T>(s: seq<T>, key: T -> real) {
    forall i, j :: 0 <= i < j < |s| ==> key(s[i]) >= key(s[j])
  }

  /** Where `x` goes in `s`: before the first element whose key is not strictly greater. */
  function InsertionPoint<T>(x: T, s: seq<T>, key: T -> real): (k: nat)
    ensures k <= |s|
    ensures forall i :: 0 <= i < k ==> key(s[i]) > key(x)
    ensures k < |s| ==> key(s[k]) <= key(x)
  {
    if s == [] || key(s[0]) <= key(x) then 0 else 1 + InsertionPoint(x, s[1..], key)
  }

  function InsertBy<T>(x: T, s: seq<T>, key: T -> real): (r: seq<T>)
    ensures multiset(r) == multiset(s) + multiset{x}
  {
    var k := InsertionPoint(x, s, key);
    assert s == s[..k] + s[k..];
    s[..k] + [x] + s[k..]
  }

  lemma InsertBySorted<T>(x: T, s: seq<T>, key: T -> real)
    requires NonIncreasingBy(s, key)
    ensures NonIncreasingBy(InsertBy(x, s, key), key)
  {
    var k := InsertionPoint(x, s, key);
    var r := InsertBy(x, s, key);
    forall i, j | 0 <= i < j < |r| ensures key(r[i]) >= key(r[j]) {
      if j < k {
        assert r[i] == s[i] && r[j] == s[j];
      } else if j == k {
        assert r[i] == s[i] && r[j] == x;
      } else if i < k {
        assert r[i] == s[i] && r[j] == s[j - 1];
      } else if i == k {
        assert r[i] == x && r[j] == s[j - 1];
      } else {
        assert r[i] == s[i - 1] && r[j] == s[j - 1];
      }
    }
  }

  /** A stable insertion sort, greatest key first: an element inserted from the front goes
      before the equal keys already placed, so equal keys keep their input order. */
  function SortBy<T>(s: seq<T>, key: T -> real): (r: seq<T>)
    ensures |r| == |s| && multiset(r) == multiset(s)
    ensures NonIncreasingBy(r, key)
  {
    if s == [] then []
    else
      assert s == [s[0]] + s[1..];
      var rest := SortBy(s[1..], key);
      InsertBySorted(s[0], rest, key);
      InsertBy(s[0], rest, key)
  }

  /** What the queries read of each organism: its fitness, species id and organism id,
      captured once so that sorting and filtering work on values. */
  datatype View = View(fitness: Organism -> real, speciesId: Organism -> int, organismId: Organism -> int)

  /** The view of the organisms of `os` in the current state. */
  function ViewOf(os: seq<Organism>): (v: View)
    reads set o | o in os
    ensures forall o :: o in os ==>
      v.fitness(o) == o.fitness && v.speciesId(o) == o.speciesId && v.organismId(o) == o.organismId
  {
    var m := map o | o in os :: (o.fitness, o.speciesId, o.organismId);
    View(
      (o: Organism) => if o in m then m[o].0 else 0.0,
      (o: Organism) => if o in m then m[o].1 else 0,
      (o: Organism) => if o in m then m[o].2 else 0)
  }

  /** `sorted(os, key=lambda o: o.fitness, reverse=True)`: fittest first; Python's sort is
      stable, and so is this one. */
  function SortByFitness(os: seq<Organism>, v: View): (r: seq<Organism>)
    ensures |r| == |os| && multiset(r) == multiset(os)
    ensures NonIncreasingBy(r, v.fitness)
  {
    SortBy(os, v.fitness)
  }

  /** The first `k` of a fitness-sorted list are at least as fit as every organism left
      out of them. */
  lemma SortedPrefixFittest(os: seq<Organism>, v: View, k: nat, o: Organism)
    requires o in os && k <= |os|
    requires o !in SortByFitness(os, v)[..k]
    ensures forall c :: c in SortByFitness(os, v)[..k] ==> v.fitness(c) >= v.fitness(o)
  {
    var s := SortByFitness(os, v);
    assert o in multiset(s);
    var j :| 0 <= j < |s| && s[j] == o;
    forall c | c in s[..k] ensures v.fitness(c) >= v.fitness(o) {
      var i :| 0 <= i < k && s[..k][i] == c;
    }
  }

  // ---------------------------------------------------------------- species queries

  /** The organisms of `os` that are (`member`) or are not (`!member`) in species `sid`,
      in order. */
  function Members(os: seq<Organism>, v: View, sid: int, member: bool): (r: seq<Organism>)
    ensures forall o :: o in r ==> o in os && (v.speciesId(o) == sid) == member
  {
    if os == [] then []
    else
      var rest := Members(os[1..], v, sid, member);
      if (v.speciesId(os[0]) == sid) == member then [os[0]] + rest else rest
  }

  /** `Members` keeps every occurrence of the organisms it selects. */
  lemma {:induction false} MembersCount(os: seq<Organism>, v: View, sid: int, member: bool, o: Organism)
    ensures multiset(Members(os, v, sid, member))[o] ==
      if (v.speciesId(o) == sid) == member then multiset(os)[o] else 0
  {
    if os != [] {
      assert os == [os[0]] + os[1..];
      MembersCount(os[1..], v, sid, member, o);
    }
  }

  lemma {:induction false} MembersSub(os: seq<Organism>, v: View, sid: int, member: bool)
    ensures multiset(Members(os, v, sid, member)) <= multiset(os)
  {
    if os != [] {
      assert os == [os[0]] + os[1..];
      MembersSub(os[1..], v, sid, member);
    }
  }

  /** Some organism of `os` is labelled `sid`. */
  predicate Inhabited(os: seq<Organism>, sidOf: Organism -> int, sid: int) {
    exists i :: 0 <= i < |os| && sidOf(os[i]) == sid
  }

  lemma MembersInhabited(os: seq<Organism>, v: View, sid: int)
    ensures Members(os, v, sid, true) != [] <==> Inhabited(os, v.speciesId, sid)
  {
    var m := Members(os, v, sid, true);
    if Inhabited(os, v.speciesId, sid) {
      var i :| 0 <= i < |os| && v.speciesId(os[i]) == sid;
      assert os[i] in multiset(os);
      MembersCount(os, v, sid, true, os[i]);
    }
    if m != [] {
      assert m[0] in m;
      var i :| 0 <= i < |os| && os[i] == m[0];
    }
  }

  /** `get_species_top_n`: the `n` fittest members of species `sid`, fittest first. */
  function SpeciesTopN(os: seq<Organism>, v: View, sid: int, n: nat): (r: seq<Organism>)
    ensures |r| <= n
    ensures |r| < n ==> |r| == |Members(os, v, sid, true)|
    ensures forall o :: o in r ==> o in os && v.speciesId(o) == sid
    ensures NonIncreasingBy(r, v.fitness)
  {
    var m := Members(os, v, sid, true);
    var sorted := SortByFitness(m, v);
    assert forall o :: o in sorted ==> o in m by {
      forall o | o in sorted ensures o in m {
        assert o in multiset(sorted);
      }
    }
    sorted[..Min(n, |sorted|)]
  }

  /** A member of the species that `get_species_top_n` leaves out is no fitter than any
      member it returns. */
  lemma SpeciesTopNFittest(os: seq<Organism>, v: View, sid: int, n: nat, o: Organism)
    requires o in os && v.speciesId(o) == sid && o !in SpeciesTopN(os, v, sid, n)
    ensures forall c :: c in SpeciesTopN(os, v, sid, n) ==> v.fitness(c) >= v.fitness(o)
  {
    var m := Members(os, v, sid, true);
    assert o in multiset(os);
    MembersCount(os, v, sid, true, o);
    assert o in m;
    SortedPrefixFittest(m, v, Min(n, |m|), o);
  }

  /** The champion of a species, `get_species_top_n(sid, 1)[0]`, is at least as fit as
      every member of the species. */
  lemma SpeciesChampionFittest(os: seq<Organism>, v: View, sid: int, o: Organism)
    requires SpeciesTopN(os, v, sid, 1) != []
    requires o in os && v.speciesId(o) == sid
    ensures v.fitness(o) <= v.fitness(SpeciesTopN(os, v, sid, 1)[0])
  {
    var r := SpeciesTopN(os, v, sid, 1);
    assert r[0] in r;
    if o != r[0] {
      SpeciesTopNFittest(os, v, sid, 1, o);
    }
  }

  /** The position of the first organism of maximal fitness. */
  function FittestIndex(os: seq<Organism>, v: View): (i: nat)
    requires os != []
    ensures i < |os|
    ensures forall j :: 0 <= j < |os| ==> v.fitness(os[j]) <= v.fitness(os[i])
    ensures forall j :: 0 <= j < i ==> v.fitness(os[j]) < v.fitness(os[i])
  {
    if |os| == 1 then 0
    else
      var k := FittestIndex(os[..|os| - 1], v);
      if v.fitness(os[|os| - 1]) > v.fitness(os[k]) then |os| - 1 else k
  }

  /** `get_superchamp`: `max(organisms, key=fitness)` returns the first organism of maximal
      fitness, and raises on an empty population (`None` here). */
  function Superchamp(os: seq<Organism>, v: View): (r: Option<Organism>)
    ensures r.None? <==> os == []
    ensures r.Some? ==> r.value in os && forall o :: o in os ==> v.fitness(o) <= v.fitness(r.value)
    ensures r.Some? ==> exists i :: 0 <= i < |os| && os[i] == r.value &&
                                   forall j :: 0 <= j < i ==> v.fitness(os[j]) < v.fitness(r.value)
  {
    if os == [] then None
    else
      var i := FittestIndex(os, v);
      Some(os[i])
  }

  /** `[get_species_top_n(sid, 1)[0] for sid in species_ids]`: one champion per species id,
      in the order of the ids; the indexing raises (`None` here) when a species has no
      organisms. */
  function SpeciesChampions(os: seq<Organism>, v: View, ids: seq<int>): (r: Option<seq<Organism>>)
    ensures r.Some? ==> |r.value| == |ids|
    ensures r.Some? ==> forall k :: 0 <= k < |ids| ==>
      r.value[k] in os && v.speciesId(r.value[k]) == ids[k]
  {
    if ids == [] then Some([])
    else
      var n := |ids| - 1;
      var prev := SpeciesChampions(os, v, ids[..n]);
      var top := SpeciesTopN(os, v, ids[n], 1);
      assert forall k :: 0 <= k < n ==> ids[..n][k] == ids[k];
      if prev.None? || top == [] then None
      else
        assert top[0] in top;
        Some(prev.value + [top[0]])
  }

  /** The champions exist exactly when every species id has an organism. */
  lemma {:induction false} SpeciesChampionsDefined(os: seq<Organism>, v: View, ids: seq<int>)
    ensures SpeciesChampions(os, v, ids).Some? <==> forall k :: 0 <= k < |ids| ==> Inhabited(os, v.speciesId, ids[k])
    decreases |ids|
  {
    if ids != [] {
      var n := |ids| - 1;
      SpeciesChampionsDefined(os, v, ids[..n]);
      MembersInhabited(os, v, ids[n]);
      if SpeciesChampions(os, v, ids).Some? {
        forall k | 0 <= k < |ids| ensures Inhabited(os, v.speciesId, ids[k]) {
          if k < n {
            assert ids[..n][k] == ids[k];
          }
        }
      } else if SpeciesChampions(os, v, ids[..n]).None? {
        var k :| 0 <= k < n && !Inhabited(os, v.speciesId, ids[..n][k]);
        assert ids[k] == ids[..n][k];
      }
    }
  }

  /** Each species champion is at least as fit as every member of its species. */
  lemma {:induction false} SpeciesChampionsFittest(os: seq<Organism>, v: View, ids: seq<int>, k: nat, o: Organism)
    requires SpeciesChampions(os, v, ids).Some? && k < |ids|
    requires o in os && v.speciesId(o) == ids[k]
    ensures v.fitness(o) <= v.fitness(SpeciesChampions(os, v, ids).value[k])
    decreases |ids|
  {
    var n := |ids| - 1;
    MembersInhabited(os, v, ids[n]);
    if k == n {
      SpeciesChampionFittest(os, v, ids[n], o);
    } else {
      assert ids[..n][k] == ids[k];
      SpeciesChampionsFittest(os, v, ids[..n], k, o);
    }
  }

  lemma SortedMembers(os: seq<Organism>, v: View)
    ensures forall c :: c in SortByFitness(os, v) ==> c in os
  {
    forall c | c in SortByFitness(os, v) ensures c in os {
      assert c in multiset(SortByFitness(os, v));
    }
  }

  lemma ChampionsIn(os: seq<Organism>, v: View, ids: seq<int>, champs: seq<Organism>)
    requires SpeciesChampions(os, v, ids) == Some(champs)
    ensures forall c :: c in champs ==> c in os && v.speciesId(c) in ids
  {
    forall c | c in champs ensures c in os && v.speciesId(c) in ids {
      var k :| 0 <= k < |champs| && champs[k] == c;
    }
  }

  /** `[o.organism_id for o in os]`. */
  function OrganismIds(os: seq<Organism>): (ids: seq<int>)
    ensures |ids| == |os| && forall j :: 0 <= j < |os| ==> ids[j] == os[j].organismId
  {
    if os == [] then [] else [os[0].organismId] + OrganismIds(os[1..])
  }

  /** `get_n_diff_species_champs`: the species champions sorted fittest first, cut to
      `n`; `None` when the champions are undefined (`SpeciesChampionsDefined`). */
  function NDiffSpeciesChamps(os: seq<Organism>, v: View, ids: seq<int>, n: nat): (r: Option<seq<Organism>>)
    ensures r.Some? <==> SpeciesChampions(os, v, ids).Some?
    ensures r.Some? ==> |r.value| == Min(n, |ids|) && NonIncreasingBy(r.value, v.fitness)
    ensures r.Some? ==> forall c :: c in r.value ==> c in os && v.speciesId(c) in ids
  {
    match SpeciesChampions(os, v, ids)
    case None => None
    case Some(champs) =>
      var sorted := SortByFitness(champs, v);
      SortedMembers(champs, v);
      ChampionsIn(os, v, ids, champs);
      Some(sorted[..Min(n, |sorted|)])
  }

  /** A chosen champion is at least as fit as every organism of its own species. */
  lemma NDiffSpeciesChampsFittest(os: seq<Organism>, v: View, ids: seq<int>, n: nat, c: Organism, o: Organism)
    requires NDiffSpeciesChamps(os, v, ids, n).Some? && c in NDiffSpeciesChamps(os, v, ids, n).value
    requires o in os && v.speciesId(o) == v.speciesId(c)
    ensures v.fitness(o) <= v.fitness(c)
  {
    var champs := SpeciesChampions(os, v, ids).value;
    var sorted := SortByFitness(champs, v);
    assert c in sorted[..Min(n, |sorted|)];
    assert c in multiset(champs);
    var k :| 0 <= k < |champs| && champs[k] == c;
    SpeciesChampionsFittest(os, v, ids, k, o);
  }

  /** A species champion that is not chosen is no fitter than any chosen one. */
  lemma NDiffSpeciesChampsTop(os: seq<Organism>, v: View, ids: seq<int>, n: nat, k: nat, c: Organism)
    requires NDiffSpeciesChamps(os, v, ids, n).Some? && k < |ids|
    requires SpeciesChampions(os, v, ids).value[k] !in NDiffSpeciesChamps(os, v, ids, n).value
    requires c in NDiffSpeciesChamps(os, v, ids, n).value
    ensures v.fitness(SpeciesChampions(os, v, ids).value[k]) <= v.fitness(c)
  {
    var champs := SpeciesChampions(os, v, ids).value;
    SortedPrefixFittest(champs, v, Min(n, |champs|), champs[k]);
  }

  /** With distinct species ids, the chosen champions come from distinct species. */
  lemma NDiffSpeciesChampsDistinct(os: seq<Organism>, v: View, ids: seq<int>, n: nat, i: nat, j: nat)
    requires NoDups(ids) && NDiffSpeciesChamps(os, v, ids, n).Some?
    requires i < j < |NDiffSpeciesChamps(os, v, ids, n).value|
    ensures v.speciesId(NDiffSpeciesChamps(os, v, ids, n).value[i]) !=
            v.speciesId(NDiffSpeciesChamps(os, v, ids, n).value[j])
  {
    var champs := SpeciesChampions(os, v, ids).value;
    var sorted := SortByFitness(champs, v);
    var r := NDiffSpeciesChamps(os, v, ids, n).value;
    assert NoDups(champs) by {
      forall a, b | 0 <= a < b < |champs| ensures champs[a] != champs[b] {
        assert v.speciesId(champs[a]) == ids[a] && v.speciesId(champs[b]) == ids[b];
      }
    }
    NoDupsByMultiset(champs, sorted);
    assert r[i] == sorted[i] && r[j] == sorted[j];
    assert r[i] in multiset(champs) && r[j] in multiset(champs);
    var a :| 0 <= a < |champs| && champs[a] == r[i];
    var b :| 0 <= b < |champs| && champs[b] == r[j];
  }

  // ---------------------------------------------------------------- speciation

  /** The position of the first representative whose genetic difference to `o` is within
      the threshold. */
  function FirstMatch(o: Organism, reps: seq<Organism>, diff: (Organism, Organism) -> real, thresh: real)
    : (r: Option<nat>)
    ensures r.Some? ==> r.value < |reps| && diff(o, reps[r.value]) <= thresh
    ensures r.Some? ==> forall k :: 0 <= k < r.value ==> diff(o, reps[k]) > thresh
    ensures r.None? ==> forall k :: 0 <= k < |reps| ==> diff(o, reps[k]) > thresh
  {
    if reps == [] then None
    else if diff(o, reps[0]) <= thresh then Some(0)
    else
      match FirstMatch(o, reps[1..], diff, thresh)
      case None => None
      case Some(k) => Some(k + 1)
  }

  /** What `speciate` threads through its loop: each organism's species id, the
      representatives, and the next species id (`_cur_species_id`). */
  datatype Speciation = Speciation(ids: map<Organism, int>, reps: seq<Organism>, next: int)

  /** Every representative has a recorded species id. */
  predicate RepsKnown(s: Speciation) {
    forall r :: r in s.reps ==> r in s.ids
  }

  /** The species id `s` records for each organism. */
  function SpeciesOf(s: Speciation): Organism -> int {
    o => if o in s.ids then s.ids[o] else -1
  }

  /** The organisms' `species_id` fields agree with `s`. */
  predicate Labelled(s: Speciation)
    reads s.ids.Keys
  {
    forall p :: p in s.ids ==> p.speciesId == s.ids[p]
  }

  /** One iteration of `speciate`'s outer loop: `o` joins the species of the first
      representative within the threshold, or founds a new species with the next id and
      becomes its representative. */
  function SpeciateOne(s: Speciation, o: Organism, diff: (Organism, Organism) -> real, thresh: real)
    : (r: Speciation)
    requires o in s.ids && RepsKnown(s)
    ensures r.ids.Keys == s.ids.Keys && RepsKnown(r)
    ensures forall p :: p in s.ids && p != o ==> r.ids[p] == s.ids[p]
    ensures
      || (&& r.reps == s.reps && r.next == s.next
          && exists k :: 0 <= k < |s.reps| && diff(o, s.reps[k]) <= thresh
                         && (forall j :: 0 <= j < k ==> diff(o, s.reps[j]) > thresh)
                         && r.ids[o] == s.ids[s.reps[k]])
      || (&& (forall k :: 0 <= k < |s.reps| ==> diff(o, s.reps[k]) > thresh)
          && r.reps == s.reps + [o] && r.next == s.next + 1 && r.ids[o] == s.next)
  {
    match FirstMatch(o, s.reps, diff, thresh)
    case Some(k) => s.(ids := s.ids[o := s.ids[s.reps[k]]])
    case None => Speciation(s.ids[o := s.next], s.reps + [o], s.next + 1)
  }

  /** `speciate`'s outer loop over `os`, in order. */
  function SpeciateAll(s: Speciation, os: seq<Organism>, diff: (Organism, Organism) -> real, thresh: real)
    : (r: Speciation)
    requires RepsKnown(s) && forall o :: o in os ==> o in s.ids
    ensures r.ids.Keys == s.ids.Keys && RepsKnown(r)
    ensures |s.reps| <= |r.reps| && r.reps[..|s.reps|] == s.reps
    ensures r.next == s.next + (|r.reps| - |s.reps|)
    ensures forall k :: |s.reps| <= k < |r.reps| ==> r.reps[k] in os
    ensures forall p :: p in s.ids && p !in os ==> r.ids[p] == s.ids[p]
  {
    if os == [] then s
    else
      var n := |os| - 1;
      var prev := SpeciateAll(s, os[..n], diff, thresh);
      assert forall o :: o in os[..n] ==> o in os;
      SpeciateOne(prev, os[n], diff, thresh)
  }

  /** When no organism is listed twice, the representatives `speciate` appends get the
      consecutive fresh ids `next`, `next + 1`, ..., in order. */
  lemma {:induction false} SpeciateFreshId(s: Speciation, os: seq<Organism>, diff: (Organism, Organism) -> real,
                                           thresh: real, k: nat)
    requires RepsKnown(s) && forall o :: o in os ==> o in s.ids
    requires NoDups(os)
    requires |s.reps| <= k < |SpeciateAll(s, os, diff, thresh).reps|
    ensures SpeciateAll(s, os, diff, thresh).ids[SpeciateAll(s, os, diff, thresh).reps[k]] == s.next + (k - |s.reps|)
    decreases |os|
  {
    var n := |os| - 1;
    assert forall o :: o in os[..n] ==> o in os;
    var prev := SpeciateAll(s, os[..n], diff, thresh);
    var r := SpeciateOne(prev, os[n], diff, thresh);
    assert r == SpeciateAll(s, os, diff, thresh);
    if k < |prev.reps| {
      assert NoDups(os[..n]);
      SpeciateFreshId(s, os[..n], diff, thresh, k);
      assert r.reps[k] == prev.reps[k];
      var i :| 0 <= i < n && os[..n][i] == prev.reps[k];
      assert os[i] == prev.reps[k];
    }
  }

  /** The labels of `os`, position by position. */
  function SpeciesLabels(os: seq<Organism>, sidOf: Organism -> int): (r: seq<int>)
    ensures |r| == |os| && forall k :: 0 <= k < |os| ==> r[k] == sidOf(os[k])
  {
    if os == [] then [] else [sidOf(os[0])] + SpeciesLabels(os[1..], sidOf)
  }

  /** `list(set(organism.species_id for organism in organisms))`: every species id in use,
      each once. */
  function SpeciesIdsOf(os: seq<Organism>, sidOf: Organism -> int): (ids: seq<int>)
    ensures NoDups(ids)
    ensures forall x :: x in ids <==> Inhabited(os, sidOf, x)
  {
    var labels := SpeciesLabels(os, sidOf);
    assert forall x :: x in labels <==> Inhabited(os, sidOf, x) by {
      forall x ensures x in labels <==> Inhabited(os, sidOf, x) {
        if x in labels {
          var k :| 0 <= k < |labels| && labels[k] == x;
        }
      }
    }
    Dedup(labels)
  }

  /** Only the labels of the organisms of `os` matter. */
  lemma SpeciesIdsAgree(os: seq<Organism>, sidOf: Organism -> int, sidOf': Organism -> int)
    requires forall o :: o in os ==> sidOf(o) == sidOf'(o)
    ensures SpeciesIdsOf(os, sidOf) == SpeciesIdsOf(os, sidOf')
  {
    assert SpeciesLabels(os, sidOf) == SpeciesLabels(os, sidOf');
  }

  /** `[rep for rep in species_reps if rep.species_id in species_ids]`. */
  function Represented(reps: seq<Organism>, sidOf: Organism -> int, ids: seq<int>): (r: seq<Organism>)
    ensures forall o :: o in r ==> o in reps && sidOf(o) in ids
    ensures forall o :: o in reps && sidOf(o) in ids ==> o in r
    ensures |r| <= |reps|
  {
    if reps == [] then []
    else
      var rest := Represented(reps[1..], sidOf, ids);
      if sidOf(reps[0]) in ids then [reps[0]] + rest else rest
  }

  lemma {:induction false} RepresentedAgree(reps: seq<Organism>, sidOf: Organism -> int, sidOf': Organism -> int,
                                            ids: seq<int>)
    requires forall o :: o in reps ==> sidOf(o) == sidOf'(o)
    ensures Represented(reps, sidOf, ids) == Represented(reps, sidOf', ids)
  {
    if reps != [] {
      assert reps[0] in reps;
      RepresentedAgree(reps[1..], sidOf, sidOf', ids);
    }
  }

  /** The threshold update at the end of `speciate`: one modifier step down when there are
      fewer species than the target, one step up when there are more, then floored at the
      modifier. */
  function AdaptThreshold(thresh: real, count: int, target: int, modifier: real): (r: real)
    ensures r >= modifier
    ensures count < target && thresh - modifier >= modifier ==> r == thresh - modifier
    ensures count > target && thresh + modifier >= modifier ==> r == thresh + modifier
    ensures count == target && thresh >= modifier ==> r == thresh
    ensures r == modifier || r == thresh - modifier || r == thresh + modifier || r == thresh
  {
    var t := if count < target then thresh - modifier
             else if count > target then thresh + modifier
             else thresh;
    if t < modifier then modifier else t
  }

  // ---------------------------------------------------------------- elimination

  /** `cutoff_index` of `eliminate_species_weakest` for a species of `n` members:
      `int(n * pct)`, raised to 2 when there are at least two members, and 1 for one. */
  function EliteCount(n: nat, pct: real): (k: nat)
    ensures n == 0 ==> k == 0
    ensures n == 1 ==> k == 1
    ensures n >= 2 ==> k >= 2 && k >= Trunc(n as real * pct)
    ensures n >= 2 ==> k == 2 || k == Trunc(n as real * pct)
  {
    var cutoff := Trunc(n as real * pct);
    if n >= 2 then (if cutoff > 2 then cutoff else 2)
    else if n == 1 then 1
    else
      assert n as real * pct == 0.0;
      cutoff
  }

  /** `species_organisms` of `eliminate_species_weakest`: the members of species `sid`,
      fittest first. */
  function Ranked(os: seq<Organism>, v: View, sid: int): (r: seq<Organism>)
    ensures multiset(r) == multiset(Members(os, v, sid, true))
    ensures multiset(r) <= multiset(os)
    ensures forall o :: o in r ==> v.speciesId(o) == sid
  {
    var m := Members(os, v, sid, true);
    MembersSub(os, v, sid, true);
    var r := SortByFitness(m, v);
    assert forall o :: o in r ==> v.speciesId(o) == sid by {
      forall o | o in r ensures v.speciesId(o) == sid {
        assert o in multiset(r);
      }
    }
    r
  }

  /** How many of `Ranked` survive: the cutoff index, capped by the species size. */
  function EliteSize(os: seq<Organism>, v: View, sid: int, pct: real): (k: nat)
    ensures k <= |Ranked(os, v, sid)|
  {
    var n := |Ranked(os, v, sid)|;
    Min(EliteCount(n, pct), n)
  }

  /** The members of species `sid` that `eliminate_species_weakest` keeps. */
  function Elite(os: seq<Organism>, v: View, sid: int, pct: real): seq<Organism> {
    Ranked(os, v, sid)[..EliteSize(os, v, sid, pct)]
  }

  /** The members of species `sid` that `eliminate_species_weakest` removes:
      `species_organisms[cutoff_index:]`. */
  function Culled(os: seq<Organism>, v: View, sid: int, pct: real): (r: seq<Organism>)
    ensures multiset(r) <= multiset(os)
    ensures forall o :: o in r ==> v.speciesId(o) == sid
  {
    var ranked := Ranked(os, v, sid);
    var k := EliteSize(os, v, sid, pct);
    assert ranked == ranked[..k] + ranked[k..];
    ranked[k..]
  }

  /** `list.remove(x)`: drops the first occurrence of `x` (organisms define no equality, so
      occurrences are by identity). */
  function RemoveFirst(s: seq<Organism>, x: Organism): (r: seq<Organism>)
    requires x in s
    ensures multiset(r) == multiset(s) - multiset{x}
  {
    assert s == [s[0]] + s[1..];
    if s[0] == x then s[1..] else [s[0]] + RemoveFirst(s[1..], x)
  }

  /** `s.remove(x)` for each `x` of `rs`, in order. */
  function RemoveEach(s: seq<Organism>, rs: seq<Organism>): (r: seq<Organism>)
    requires multiset(rs) <= multiset(s)
    ensures multiset(r) == multiset(s) - multiset(rs)
  {
    if rs == [] then s
    else
      var n := |rs| - 1;
      assert rs == rs[..n] + [rs[n]];
      var prev := RemoveEach(s, rs[..n]);
      assert rs[n] in multiset(prev);
      RemoveFirst(prev, rs[n])
  }

  lemma RemoveEachNext(s: seq<Organism>, rs: seq<Organism>, n: nat)
    requires multiset(rs) <= multiset(s) && n < |rs|
    ensures multiset(rs[..n + 1]) <= multiset(s) && multiset(rs[..n]) <= multiset(s)
    ensures rs[n] in RemoveEach(s, rs[..n])
    ensures RemoveEach(s, rs[..n + 1]) == RemoveFirst(RemoveEach(s, rs[..n]), rs[n])
  {
    assert rs == rs[..n + 1] + rs[n + 1..];
    assert rs[..n + 1] == rs[..n] + [rs[n]];
    assert rs[..n + 1][..n] == rs[..n];
    assert rs[n] in multiset(RemoveEach(s, rs[..n]));
  }

  lemma {:induction false} RemoveFirstOthers(s: seq<Organism>, v: View, x: Organism, sid: int)
    requires x in s && v.speciesId(x) == sid
    ensures Members(RemoveFirst(s, x), v, sid, false) == Members(s, v, sid, false)
  {
    if s[0] != x {
      RemoveFirstOthers(s[1..], v, x, sid);
      assert ([s[0]] + RemoveFirst(s[1..], x))[1..] == RemoveFirst(s[1..], x);
    }
  }

  lemma {:induction false} RemoveEachOthers(s: seq<Organism>, v: View, rs: seq<Organism>, sid: int)
    requires multiset(rs) <= multiset(s)
    requires forall o :: o in rs ==> v.speciesId(o) == sid
    ensures Members(RemoveEach(s, rs), v, sid, false) == Members(s, v, sid, false)
    decreases |rs|
  {
    if rs != [] {
      var n := |rs| - 1;
      RemoveEachNext(s, rs, n);
      assert rs[..n + 1] == rs;
      assert rs[n] in rs;
      RemoveEachOthers(s, v, rs[..n], sid);
      RemoveFirstOthers(RemoveEach(s, rs[..n]), v, rs[n], sid);
    }
  }

  /** `eliminate_species_weakest` leaves every organism of the other species in place, in
      order. */
  lemma EliminateKeepsOthers(os: seq<Organism>, v: View, sid: int, pct: real)
    ensures Members(RemoveEach(os, Culled(os, v, sid, pct)), v, sid, false) == Members(os, v, sid, false)
  {
    RemoveEachOthers(os, v, Culled(os, v, sid, pct), sid);
  }

  /** Removing a member of species `sid` removes it from the species' members. */
  lemma {:induction false} RemoveFirstMembers(s: seq<Organism>, v: View, x: Organism, sid: int)
    requires x in s && v.speciesId(x) == sid
    ensures multiset(Members(RemoveFirst(s, x), v, sid, true)) ==
            multiset(Members(s, v, sid, true)) - multiset{x}
  {
    if s[0] != x {
      RemoveFirstMembers(s[1..], v, x, sid);
      assert ([s[0]] + RemoveFirst(s[1..], x))[1..] == RemoveFirst(s[1..], x);
    }
  }

  lemma DiffStep<T>(a: multiset<T>, b: multiset<T>, x: T)
    ensures (a - b) - multiset{x} == a - (b + multiset{x})
  {
  }

  lemma {:induction false} RemoveEachMembers(s: seq<Organism>, v: View, rs: seq<Organism>, sid: int)
    requires multiset(rs) <= multiset(s)
    requires forall o :: o in rs ==> v.speciesId(o) == sid
    ensures multiset(Members(RemoveEach(s, rs), v, sid, true)) ==
            multiset(Members(s, v, sid, true)) - multiset(rs)
    decreases |rs|
  {
    if rs != [] {
      var n := |rs| - 1;
      var x := rs[n];
      assert rs == rs[..n] + [x];
      assert multiset(rs) == multiset(rs[..n]) + multiset{x};
      RemoveEachNext(s, rs, n);
      assert rs[..n + 1] == rs;
      assert x in rs;
      var prev := RemoveEach(s, rs[..n]);
      RemoveEachMembers(s, v, rs[..n], sid);
      RemoveFirstMembers(prev, v, x, sid);
      calc {
        multiset(Members(RemoveEach(s, rs), v, sid, true));
        multiset(Members(RemoveFirst(prev, x), v, sid, true));
        multiset(Members(prev, v, sid, true)) - multiset{x};
        (multiset(Members(s, v, sid, true)) - multiset(rs[..n])) - multiset{x};
        { DiffStep(multiset(Members(s, v, sid, true)), multiset(rs[..n]), x); }
        multiset(Members(s, v, sid, true)) - (multiset(rs[..n]) + multiset{x});
        multiset(Members(s, v, sid, true)) - multiset(rs);
      }
    }
  }

  /** After `eliminate_species_weakest`, the members of the species are exactly its elite:
      the fittest `cutoff_index` of them. */
  lemma EliminateKeepsElite(os: seq<Organism>, v: View, sid: int, pct: real)
    ensures multiset(Members(RemoveEach(os, Culled(os, v, sid, pct)), v, sid, true)) ==
            multiset(Elite(os, v, sid, pct))
  {
    var ranked := Ranked(os, v, sid);
    var k := EliteSize(os, v, sid, pct);
    var culled := Culled(os, v, sid, pct);
    assert culled == ranked[k..];
    SplitMultiset(ranked, k);
    RemoveEachMembers(os, v, culled, sid);
    calc {
      multiset(Members(RemoveEach(os, culled), v, sid, true));
      multiset(Members(os, v, sid, true)) - multiset(culled);
      multiset(ranked) - multiset(culled);
      (multiset(ranked[..k]) + multiset(culled)) - multiset(culled);
      { AddSub(multiset(ranked[..k]), multiset(culled)); }
      multiset(ranked[..k]);
    }
  }

  lemma SplitMultiset<T>(s: seq<T>, k: nat)
    requires k <= |s|
    ensures multiset(s) == multiset(s[..k]) + multiset(s[k..])
  {
    assert s == s[..k] + s[k..];
  }

  lemma AddSub<T>(a: multiset<T>, b: multiset<T>)
    ensures (a + b) - b == a
  {
  }

  /** The hall-of-fame picks of `select_challengers`: the `i`-th is
      `hall_of_fame[randint(0, len - 1)]` with draw `draws[i]`. */
  function HallPicks(hallOfFame: seq<Organism>, draws: seq<nat>, h: nat): (r: seq<Organism>)
    requires h <= |draws| && h <= |hallOfFame|
    ensures |r| == h && forall i :: 0 <= i < h ==> r[i] == hallOfFame[draws[i] % |hallOfFame|]
  {
    if h == 0 then [] else HallPicks(hallOfFame, draws, h - 1) + [hallOfFame[draws[h - 1] % |hallOfFame|]]
  }

  /** The filling loop of `select_challengers`, from draw `next` on: while fewer than
      `total` are chosen, fail on an empty population, fail when the draws run out, and
      otherwise draw an organism and append it unless its organism id is chosen already. */
  function Fill(os: seq<Organism>, ch: seq<Organism>, draws: seq<nat>, next: nat, total: nat)
    : (r: Result<seq<Organism>, ChallengeFault>)
    requires |ch| <= total
    ensures r.Failure? ==> |ch| < total && r.error != MissingChampion
    ensures r == Failure(EmptyPopulation) <==> os == [] && |ch| < total
    ensures os != [] && |ch| < total && |draws| < next + (total - |ch|) ==> r == Failure(OutOfDraws)
    ensures r.Success? ==> |r.value| == total && r.value[..|ch|] == ch
    ensures r.Success? ==> forall k :: |ch| <= k < total ==> r.value[k] in os
    decreases |draws| - next
  {
    if |ch| == total then Success(ch)
    else if os == [] then Failure(EmptyPopulation)
    else if next >= |draws| then Failure(OutOfDraws)
    else
      var pick := os[draws[next] % |os|];
      if pick.organismId in OrganismIds(ch) then Fill(os, ch, draws, next + 1, total)
      else
        var r := Fill(os, ch + [pick], draws, next + 1, total);
        assert r.Success? ==> r.value[..|ch|] == (r.value[..|ch| + 1])[..|ch|];
        r
  }

  /** A successful fill appends only organisms whose ids differ from all chosen before. */
  lemma {:induction false} FillDistinct(os: seq<Organism>, ch: seq<Organism>, draws: seq<nat>, next: nat, total: nat)
    requires |ch| <= total
    requires Fill(os, ch, draws, next, total).Success?
    ensures var r := Fill(os, ch, draws, next, total).value;
      forall k :: |ch| <= k < total ==> forall j :: 0 <= j < k ==> r[j].organismId != r[k].organismId
    decreases |draws| - next
  {
    if |ch| < total {
      var pick := os[draws[next] % |os|];
      var r := Fill(os, ch, draws, next, total).value;
      if pick.organismId in OrganismIds(ch) {
        FillDistinct(os, ch, draws, next + 1, total);
      } else {
        var ch' := ch + [pick];
        FillDistinct(os, ch', draws, next + 1, total);
        assert r[..|ch'|] == ch';
        forall j | 0 <= j < |ch| ensures r[j].organismId != r[|ch|].organismId {
          assert r[j] == ch[j] && r[|ch|] == pick;
          assert OrganismIds(ch)[j] == ch[j].organismId;
        }
      }
    }
  }

  /** Extra draws after a successful fill are never consumed: the result is the same. */
  lemma {:induction false} FillMoreDraws(os: seq<Organism>, ch: seq<Organism>, draws: seq<nat>, more: seq<nat>,
                                         next: nat, total: nat)
    requires |ch| <= total
    requires Fill(os, ch, draws, next, total).Success?
    ensures Fill(os, ch, draws + more, next, total) == Fill(os, ch, draws, next, total)
    decreases |draws| - next
  {
    if |ch| < total {
      assert (draws + more)[next] == draws[next];
      var pick := os[draws[next] % |os|];
      if pick.organismId in OrganismIds(ch) {
        FillMoreDraws(os, ch, draws, more, next + 1, total);
      } else {
        FillMoreDraws(os, ch + [pick], draws, more, next + 1, total);
      }
    }
  }

  /** `select_challengers` once the champions `champs` are chosen: the hall-of-fame
      picks, or `OutOfDraws` when there are too few draws for them, then the fill from
      the draw after the picks. */
  function ChallengersAfter(os: seq<Organism>, champs: seq<Organism>, hallOfFame: seq<Organism>,
                            draws: seq<nat>, numChamp: nat, numHof: nat): (r: Result<seq<Organism>, ChallengeFault>)
    requires |champs| <= numChamp
    ensures r != Failure(MissingChampion)
    ensures r == Failure(EmptyPopulation) ==> os == []
    ensures |draws| < Min(numHof, |hallOfFame|) ==> r == Failure(OutOfDraws)
  {
    var h := Min(numHof, |hallOfFame|);
    if |draws| < h then Failure(OutOfDraws)
    else
      var picks := HallPicks(hallOfFame, draws, h);
      assert forall o :: o in champs + picks + os ==> o in champs + hallOfFame + os;
      Fill(os, champs + picks, draws, h, numChamp + numHof)
  }

  /** With enough draws for the hall-of-fame picks, the outcome is the fill that follows
      them. */
  lemma ChallengersAfterFill(os: seq<Organism>, champs: seq<Organism>, hallOfFame: seq<Organism>,
                             draws: seq<nat>, numChamp: nat, numHof: nat)
    requires |champs| <= numChamp && Min(numHof, |hallOfFame|) <= |draws|
    ensures var h := Min(numHof, |hallOfFame|);
      ChallengersAfter(os, champs, hallOfFame, draws, numChamp, numHof)
        == Fill(os, champs + HallPicks(hallOfFame, draws, h), draws, h, numChamp + numHof)
  {
  }

  /** A successful `select_challengers` after the champions is a challenger list. */
  lemma ChallengersAfterList(os: seq<Organism>, champs: seq<Organism>, hallOfFame: seq<Organism>,
                             draws: seq<nat>, numChamp: nat, numHof: nat)
    requires |champs| <= numChamp
    ensures var r := ChallengersAfter(os, champs, hallOfFame, draws, numChamp, numHof);
      r.Success? ==> ChallengerList(r.value, champs, hallOfFame, draws, os, numChamp, numHof)
  {
    if ChallengersAfter(os, champs, hallOfFame, draws, numChamp, numHof).Success? {
      var h := Min(numHof, |hallOfFame|);
      var picks := HallPicks(hallOfFame, draws, h);
      var chosen := champs + picks;
      var r := Fill(os, chosen, draws, h, numChamp + numHof).value;
      FillDistinct(os, chosen, draws, h, numChamp + numHof);
      assert r[..|champs|] == chosen[..|champs|];
      forall i | 0 <= i < h ensures r[|champs| + i] == hallOfFame[draws[i] % |hallOfFame|] {
        assert r[|champs| + i] == r[..|chosen|][|champs| + i];
      }
    }
  }

  // ---------------------------------------------------------------- the population

  /** What a successful `select_challengers` returns: the champions `champs` first, then
      `min(numHof, len(hall_of_fame))` hall-of-fame members, the `i`-th chosen by draw
      `draws[i]`, then organisms of `os` whose organism ids differ from those of all the
      challengers before them, `numChamp + numHof` in all. */
  predicate ChallengerList(r: seq<Organism>, champs: seq<Organism>, hallOfFame: seq<Organism>,
                           draws: seq<nat>, os: seq<Organism>, numChamp: nat, numHof: nat)
  {
    var n := |champs|;
    var h := Min(numHof, |hallOfFame|);
    && n + h <= |r| == numChamp + numHof && h <= |draws|
    && r[..n] == champs
    && (forall i :: 0 <= i < h ==> r[n + i] == hallOfFame[draws[i] % |hallOfFame|])
    && (forall i :: n + h <= i < |r| ==>
          r[i] in os && forall j :: 0 <= j < i ==> r[j].organismId != r[i].organismId)
  }

  /** Why `select_challengers` cannot finish: a species id without organisms (the
      `[0]` index raises), no organism to draw from (`randint(0, -1)` raises), or the
      supplied random draws ran out before enough distinct challengers were found (the
      source would keep drawing). */
  datatype ChallengeFault = MissingChampion | EmptyPopulation | OutOfDraws

  class Population {
    const settings: Settings
    var curSpeciesId: int
    var speciesCompatThresh: real
    var organisms: seq<Organism>
    var speciesReps: seq<Organism>
    var speciesIds: seq<int>

    /** `Population()`: starts with no representatives, species id 0 and the initial
        threshold, takes the (already mutated) organisms and speciates them. */
    constructor (settings: Settings, initial: seq<Organism>, diff: (Organism, Organism) -> real)
      modifies set o | o in initial
      ensures this.settings == settings && organisms == initial
      ensures var s := SpeciateAll(Speciation(map o | o in initial :: old(o.speciesId), [], 0),
                                   initial, diff, settings.speciesCompatThreshInitial);
        && Labelled(s) && curSpeciesId == s.next
        && speciesIds == SpeciesIdsOf(organisms, SpeciesOf(s))
        && speciesReps == Represented(s.reps, SpeciesOf(s), speciesIds)
      ensures speciesCompatThresh == AdaptThreshold(settings.speciesCompatThreshInitial, |speciesIds|,
                                                    settings.speciesCountTarget, settings.speciesCompatModifier)
      ensures NoDups(speciesIds)
      ensures forall o :: o in organisms ==> o.speciesId in speciesIds
      ensures forall x :: x in speciesIds ==> exists i :: 0 <= i < |organisms| && organisms[i].speciesId == x
      ensures forall r :: r in speciesReps ==> r in organisms && r.speciesId in speciesIds
    {
      ghost var start := Speciation(map o | o in initial :: o.speciesId, [], 0);
      this.settings := settings;
      curSpeciesId := 0;
      speciesCompatThresh := settings.speciesCompatThreshInitial;
      organisms := initial;
      speciesReps := [];
      speciesIds := [1, 2, 3, 4];
      new;
      assert organisms + speciesReps == initial;
      assert Start().ids == start.ids;
      Speciate(diff);
    }

    /** `get_next_species_id`: hands out 0, 1, 2, ... */
    method GetNextSpeciesId() returns (id: int)
      modifies this
      ensures id == old(curSpeciesId) && curSpeciesId == id + 1
      ensures organisms == old(organisms) && speciesReps == old(speciesReps)
      ensures speciesIds == old(speciesIds) && speciesCompatThresh == old(speciesCompatThresh)
    {
      id := curSpeciesId;
      curSpeciesId := curSpeciesId + 1;
    }

    /** What `speciate` starts from: the recorded species id of every organism and
        representative, the representatives, and the next species id. */
    function Start(): (s: Speciation)
      reads this, set o | o in organisms + speciesReps
      ensures RepsKnown(s) && Labelled(s)
      ensures s.reps == speciesReps && s.next == curSpeciesId
      ensures forall o :: o in organisms ==> o in s.ids
    {
      Speciation(map o | o in organisms + speciesReps :: o.speciesId, speciesReps, curSpeciesId)
    }

    /** `organism.species_id = species_rep.species_id`. */
    method JoinSpecies(o: Organism, rep: Organism, ghost s: Speciation) returns (ghost s': Speciation)
      requires o in s.ids && rep in s.ids && Labelled(s)
      modifies o
      ensures s' == s.(ids := s.ids[o := s.ids[rep]]) && Labelled(s')
    {
      o.speciesId := rep.speciesId;
      s' := s.(ids := s.ids[o := s.ids[rep]]);
    }

    /** A new species: `o` gets the next species id and becomes its representative. */
    method FoundSpecies(o: Organism, ghost s: Speciation) returns (ghost s': Speciation)
      requires o in s.ids && Labelled(s)
      requires speciesReps == s.reps && curSpeciesId == s.next
      modifies this, o
      ensures s' == Speciation(s.ids[o := s.next], s.reps + [o], s.next + 1)
      ensures Labelled(s') && speciesReps == s'.reps && curSpeciesId == s'.next
      ensures organisms == old(organisms) && speciesIds == old(speciesIds)
      ensures speciesCompatThresh == old(speciesCompatThresh)
    {
      var newId := GetNextSpeciesId();
      o.speciesId := newId;
      speciesReps := speciesReps + [o];
      s' := Speciation(s.ids[o := s.next], s.reps + [o], s.next + 1);
    }

    /** One pass of `speciate`'s outer loop for organism `o`: the inner loop over the
        representatives, then a new species when none is close enough. */
    method SpeciateOrganism(o: Organism, diff: (Organism, Organism) -> real, ghost s: Speciation)
      returns (ghost s': Speciation)
      requires o in s.ids && RepsKnown(s) && Labelled(s)
      requires speciesReps == s.reps && curSpeciesId == s.next
      modifies this, o
      ensures s' == SpeciateOne(s, o, diff, speciesCompatThresh)
      ensures Labelled(s') && speciesReps == s'.reps && curSpeciesId == s'.next
      ensures organisms == old(organisms) && speciesIds == old(speciesIds)
      ensures speciesCompatThresh == old(speciesCompatThresh)
    {
      var reps := speciesReps;
      var thresh := speciesCompatThresh;
      var j := 0;
      while j < |reps|
        invariant j <= |reps|
        invariant forall k :: 0 <= k < j ==> diff(o, reps[k]) > thresh
      {
        if diff(o, reps[j]) <= thresh {
          assert FirstMatch(o, reps, diff, thresh) == Some(j);
          s' := JoinSpecies(o, reps[j], s);
          return;
        }
        j := j + 1;
      }
      assert FirstMatch(o, reps, diff, thresh) == None;
      s' := FoundSpecies(o, s);
    }

    /** `speciate`'s outer loop: every organism, in order, joins a species or founds one. */
    method AssignSpecies(diff: (Organism, Organism) -> real) returns (ghost s: Speciation)
      modifies this, set o | o in organisms
      ensures organisms == old(organisms) && speciesIds == old(speciesIds)
      ensures speciesCompatThresh == old(speciesCompatThresh)
      ensures s == SpeciateAll(old(Start()), organisms, diff, speciesCompatThresh)
      ensures Labelled(s) && speciesReps == s.reps && curSpeciesId == s.next
    {
      ghost var s0 := Start();
      s := s0;
      var i := 0;
      while i < |organisms|
        invariant i <= |organisms| && organisms == old(organisms)
        invariant speciesIds == old(speciesIds) && speciesCompatThresh == old(speciesCompatThresh)
        invariant s == SpeciateAll(s0, organisms[..i], diff, speciesCompatThresh)
        invariant Labelled(s) && speciesReps == s.reps && curSpeciesId == s.next
      {
        assert organisms[..i + 1][..i] == organisms[..i];
        s := SpeciateOrganism(organisms[i], diff, s);
        i := i + 1;
      }
      assert organisms[..i] == organisms;
    }

    /** The end of `speciate`: `species_ids` becomes the labels in use, representatives of
        vanished species are dropped, and the threshold moves towards the target species
        count; `label` is the organisms' `species_id`. */
    method Regroup(ghost sidOf: Organism -> int)
      requires forall o :: o in organisms ==> o.speciesId == sidOf(o)
      requires forall o :: o in speciesReps ==> o.speciesId == sidOf(o)
      modifies this
      ensures speciesIds == SpeciesIdsOf(organisms, sidOf)
      ensures speciesReps == Represented(old(speciesReps), sidOf, speciesIds)
      ensures speciesCompatThresh == AdaptThreshold(old(speciesCompatThresh), |speciesIds|,
                                                    settings.speciesCountTarget, settings.speciesCompatModifier)
      ensures organisms == old(organisms) && curSpeciesId == old(curSpeciesId)
    {
      var v := ViewOf(organisms + speciesReps);
      SpeciesIdsAgree(organisms, v.speciesId, sidOf);
      var ids := SpeciesIdsOf(organisms, v.speciesId);
      RepresentedAgree(speciesReps, v.speciesId, sidOf, ids);
      speciesIds, speciesReps := ids, Represented(speciesReps, v.speciesId, ids);
      speciesCompatThresh := AdaptThreshold(speciesCompatThresh, |ids|,
                                            settings.speciesCountTarget, settings.speciesCompatModifier);
    }

    /** `speciate`: the species ids afterwards are the labels the outer loop gave, and
        the representatives those whose sidOf is still in use. */
    method Speciate(diff: (Organism, Organism) -> real)
      modifies this, set o | o in organisms
      ensures organisms == old(organisms)
      ensures var s := SpeciateAll(old(Start()), organisms, diff, old(speciesCompatThresh));
        && Labelled(s) && curSpeciesId == s.next
        && speciesIds == SpeciesIdsOf(organisms, SpeciesOf(s))
        && speciesReps == Represented(s.reps, SpeciesOf(s), speciesIds)
      ensures speciesCompatThresh == AdaptThreshold(old(speciesCompatThresh), |speciesIds|,
                                                    settings.speciesCountTarget, settings.speciesCompatModifier)
      ensures NoDups(speciesIds)
      ensures forall o :: o in organisms ==> o.speciesId in speciesIds
      ensures forall x :: x in speciesIds ==> exists i :: 0 <= i < |organisms| && organisms[i].speciesId == x
      ensures forall r :: r in speciesReps ==> r.speciesId in speciesIds
    {
      ghost var s := AssignSpecies(diff);
      Regroup(SpeciesOf(s));
      SpeciesIdsFacts(SpeciesOf(s));
    }

    /** What `species_ids` means after `speciate`, in terms of the organisms' fields. */
    lemma SpeciesIdsFacts(sidOf: Organism -> int)
      requires forall o :: o in organisms ==> o.speciesId == sidOf(o)
      requires speciesIds == SpeciesIdsOf(organisms, sidOf)
      ensures NoDups(speciesIds)
      ensures forall o :: o in organisms ==> o.speciesId in speciesIds
      ensures forall x :: x in speciesIds ==> exists i :: 0 <= i < |organisms| && organisms[i].speciesId == x
    {
      forall o | o in organisms ensures o.speciesId in speciesIds {
        var i :| 0 <= i < |organisms| && organisms[i] == o;
        assert Inhabited(organisms, sidOf, sidOf(o));
      }
      forall x | x in speciesIds ensures exists i :: 0 <= i < |organisms| && organisms[i].speciesId == x {
        var i :| 0 <= i < |organisms| && sidOf(organisms[i]) == x;
      }
    }

    /** `self.organisms.remove(x)`. */
    method RemoveOrganism(x: Organism)
      requires x in organisms
      modifies this
      ensures organisms == RemoveFirst(old(organisms), x)
      ensures speciesReps == old(speciesReps) && speciesIds == old(speciesIds)
      ensures curSpeciesId == old(curSpeciesId) && speciesCompatThresh == old(speciesCompatThresh)
    {
      organisms := RemoveFirst(organisms, x);
    }

    /** `for organism in doomed: self.organisms.remove(organism)`. */
    method RemoveAll(doomed: seq<Organism>)
      requires multiset(doomed) <= multiset(organisms)
      modifies this
      ensures organisms == RemoveEach(old(organisms), doomed)
      ensures speciesReps == old(speciesReps) && speciesIds == old(speciesIds)
      ensures curSpeciesId == old(curSpeciesId) && speciesCompatThresh == old(speciesCompatThresh)
    {
      var k := 0;
      while k < |doomed|
        invariant k <= |doomed| && multiset(doomed[..k]) <= multiset(old(organisms))
        invariant organisms == RemoveEach(old(organisms), doomed[..k])
        invariant speciesReps == old(speciesReps) && speciesIds == old(speciesIds)
        invariant curSpeciesId == old(curSpeciesId) && speciesCompatThresh == old(speciesCompatThresh)
      {
        RemoveEachNext(old(organisms), doomed, k);
        RemoveOrganism(doomed[k]);
        k := k + 1;
      }
      assert doomed[..k] == doomed;
    }

    /** `eliminate_species_weakest`: removes the members of species `sid` after its
        elite. */
    method EliminateSpeciesWeakest(sid: int)
      modifies this
      ensures organisms == RemoveEach(old(organisms), old(Culled(organisms, ViewOf(organisms), sid,
                                                                 settings.speciesElitePercentage)))
      ensures speciesReps == old(speciesReps) && speciesIds == old(speciesIds)
      ensures curSpeciesId == old(curSpeciesId) && speciesCompatThresh == old(speciesCompatThresh)
    {
      var doomed := Culled(organisms, ViewOf(organisms), sid, settings.speciesElitePercentage);
      RemoveAll(doomed);
    }

    /** The hall-of-fame loop of `select_challengers`: `min(num_hall_of_fame_parasites,
        len(hall_of_fame))` members drawn with replacement, one draw each; `None` when the
        draws run out. */
    method PickHallOfFame(hallOfFame: seq<Organism>, draws: seq<nat>) returns (picks: Option<seq<Organism>>)
      ensures var h := Min(settings.numHallOfFameParasites, |hallOfFame|);
        picks == if |draws| < h then None else Some(HallPicks(hallOfFame, draws, h))
    {
      var h := Min(settings.numHallOfFameParasites, |hallOfFame|);
      var chosen: seq<Organism> := [];
      var i := 0;
      while i < h
        invariant i <= h && i <= |draws| && chosen == HallPicks(hallOfFame, draws, i)
      {
        if i == |draws| {
          return None;
        }
        chosen := chosen + [hallOfFame[draws[i] % |hallOfFame|]];
        i := i + 1;
      }
      return Some(chosen);
    }

    /** The filling loop of `select_challengers`: draws organisms, from `draws[d]` on, and
        appends those whose organism id is not chosen yet, until there are `total`. */
    method FillRandom(chosen: seq<Organism>, draws: seq<nat>, d: nat, total: nat)
      returns (r: Result<seq<Organism>, ChallengeFault>)
      requires |chosen| <= total
      ensures r == Fill(organisms, chosen, draws, d, total)
    {
      var ch := chosen;
      var ids := OrganismIds(chosen);
      var next := d;
      while |ch| < total
        invariant |ch| <= total && ids == OrganismIds(ch)
        invariant Fill(organisms, ch, draws, next, total) == Fill(organisms, chosen, draws, d, total)
        decreases |draws| - next
      {
        if organisms == [] {
          return Failure(EmptyPopulation);
        }
        if next >= |draws| {
          return Failure(OutOfDraws);
        }
        var pick := organisms[draws[next] % |organisms|];
        next := next + 1;
        if pick.organismId in ids {
          continue;
        }
        ch := ch + [pick];
        ids := ids + [pick.organismId];
        assert ids == OrganismIds(ch);
      }
      return Success(ch);
    }

    /** `select_challengers` once the species champions `champs` are chosen: the
        hall-of-fame picks follow them, then the random organisms. */
    method AddChallengers(champs: seq<Organism>, hallOfFame: seq<Organism>, draws: seq<nat>)
      returns (r: Result<seq<Organism>, ChallengeFault>)
      requires |champs| <= settings.numChampionParasites
      ensures r == ChallengersAfter(organisms, champs, hallOfFame, draws,
                                    settings.numChampionParasites, settings.numHallOfFameParasites)
      ensures r.Success? ==> ChallengerList(r.value, champs, hallOfFame, draws, organisms,
                                            settings.numChampionParasites, settings.numHallOfFameParasites)
    {
      var numChamp, numHof := settings.numChampionParasites, settings.numHallOfFameParasites;
      var picks := PickHallOfFame(hallOfFame, draws);
      if picks.None? {
        return Failure(OutOfDraws);
      }
      r := FillRandom(champs + picks.value, draws, |picks.value|, numChamp + numHof);
      ChallengersAfterFill(organisms, champs, hallOfFame, draws, numChamp, numHof);
      ChallengersAfterList(organisms, champs, hallOfFame, draws, numChamp, numHof);
    }

    /** `select_challengers`: the fittest species champions (at most
        `num_champion_parasites`), then `min(num_hall_of_fame_parasites, len(hall_of_fame))`
        hall-of-fame members, then random organisms whose ids are not yet chosen, until there
        are `num_champion_parasites + num_hall_of_fame_parasites`. Each `randint(0, n - 1)`
        is the next of `draws`, taken modulo `n`. */
    method SelectChallengers(hallOfFame: seq<Organism>, draws: seq<nat>)
      returns (r: Result<seq<Organism>, ChallengeFault>)
      ensures var champs := NDiffSpeciesChamps(organisms, ViewOf(organisms), speciesIds,
                                               settings.numChampionParasites);
        && (champs.None? <==> r == Failure(MissingChampion))
        && (champs.Some? ==> r == ChallengersAfter(organisms, champs.value, hallOfFame, draws,
                                                   settings.numChampionParasites, settings.numHallOfFameParasites))
        && (r == Failure(EmptyPopulation) ==> organisms == [])
        && (r.Success? ==> ChallengerList(r.value, champs.value, hallOfFame, draws, organisms,
                                          settings.numChampionParasites, settings.numHallOfFameParasites))
    {
      var v := ViewOf(organisms);
      var champs := NDiffSpeciesChamps(organisms, v, speciesIds, settings.numChampionParasites);
      if champs.None? {
        return Failure(MissingChampion);
      }
      r := AddChallengers(champs.value, hallOfFame, draws);
      assert v == ViewOf(organisms);
    }
  }
}
