/** Fitness evaluation (`fitness.py`): a host organism plays two games against every
    challenger, once as white and once as black, and the results are collected in a
    dictionary keyed by (host id, challenger id, host is white). Results already known from
    an earlier round are reused instead of playing the game again. */
module Fitness {
  import opened NeatTypes
  import OrganismModel

  type Organism = OrganismModel.Organism

  /** `(host.organism_id, challenger.organism_id, host_is_white)`. */
  type Key = (int, int, bool)

  /** `GameController.play_game(host, challenger, host_is_white)`, supplied by the caller. */
  type PlayGame = (Organism, Organism, bool) -> int

  /** A Python dictionary: its keys in insertion order and its entries. Writing to a key
      that is already present replaces the entry and keeps the key's position. */
  datatype Dict = Dict(order: seq<Key>, entries: map<Key, int>)

  /** The keys listed in `order` are exactly the entries' keys, each listed once. */
  ghost predicate DictValid(d: Dict) {
    && (forall key :: key in d.entries <==> key in d.order)
    && |d.entries.Keys| == |d.order|
  }

  /** `results[key] = value`. */
  function Put(d: Dict, key: Key, value: int): Dict {
    if key in d.entries then Dict(d.order, d.entries[key := value])
    else Dict(d.order + [key], d.entries[key := value])
  }

  /** Writing keeps the key list and the entries in step; the new key is listed once. */
  lemma PutValid(d: Dict, key: Key, value: int)
    requires DictValid(d)
    ensures DictValid(Put(d, key, value))
  {
    if key !in d.entries {
      assert d.entries[key := value].Keys == d.entries.Keys + {key};
    }
  }

  /** One game's result: the precomputed one when `precalc_results` is given, non-empty and
      holds the key (a `None` or empty dictionary is false in Python), otherwise a game
      played. */
  function GameResult(host: Organism, hostId: int, challenger: Organism, challengerId: int, hostIsWhite: bool,
                      precalc: Option<map<Key, int>>, play: PlayGame): int
  {
    var key := (hostId, challengerId, hostIsWhite);
    if precalc.Some? && |precalc.value| > 0 && key in precalc.value then precalc.value[key]
    else play(host, challenger, hostIsWhite)
  }

  /** The dictionary after the games against the challengers `cs` (with organism ids
      `ids`): for each challenger in turn, first the game with the host as white, then as
      black. */
  function Games(host: Organism, hostId: int, cs: seq<Organism>, ids: seq<int>,
                 precalc: Option<map<Key, int>>, play: PlayGame): Dict
    requires |ids| == |cs|
  {
    if cs == [] then Dict([], map[])
    else
      var n := |cs| - 1;
      var before := Games(host, hostId, cs[..n], ids[..n], precalc, play);
      var white := Put(before, (hostId, ids[n], true), GameResult(host, hostId, cs[n], ids[n], true, precalc, play));
      Put(white, (hostId, ids[n], false), GameResult(host, hostId, cs[n], ids[n], false, precalc, play))
  }

  function IdsOf(cs: seq<Organism>): (ids: seq<int>)
    reads set c | c in cs
    ensures |ids| == |cs| && forall k :: 0 <= k < |cs| ==> ids[k] == cs[k].organismId
  {
    if cs == [] then [] else IdsOf(cs[..|cs| - 1]) + [cs[|cs| - 1].organismId]
  }

  /** `evaluate_fitness_sync`: plays (or looks up) both games against every challenger. */
  method EvaluateFitnessSync(host: Organism, challengers: seq<Organism>, precalc: Option<map<Key, int>>,
                             play: PlayGame) returns (results: Dict)
    ensures results == Games(host, host.organismId, challengers, IdsOf(challengers), precalc, play)
  {
    ghost var ids := IdsOf(challengers);
    results := Dict([], map[]);
    for k := 0 to |challengers|
      invariant results == Games(host, host.organismId, challengers[..k], ids[..k], precalc, play)
    {
      results := PlayBoth(host, challengers, k, ids, precalc, play, results);
    }
    assert challengers[..|challengers|] == challengers && ids[..|ids|] == ids;
  }

  /** The inner loop of `evaluate_fitness_sync` for the k-th challenger: `i == 0` is the
      game with the host as white. */
  method PlayBoth(host: Organism, challengers: seq<Organism>, k: nat, ghost ids: seq<int>,
                  precalc: Option<map<Key, int>>, play: PlayGame, before: Dict) returns (results: Dict)
    requires k < |challengers| && ids == IdsOf(challengers)
    requires before == Games(host, host.organismId, challengers[..k], ids[..k], precalc, play)
    ensures results == Games(host, host.organismId, challengers[..k + 1], ids[..k + 1], precalc, play)
  {
    var challenger := challengers[k];
    results := before;
    for i := 0 to 2
      invariant i == 1 ==> results == Put(before, (host.organismId, ids[k], true),
                                          GameResult(host, host.organismId, challenger, ids[k], true, precalc, play))
      invariant i == 0 ==> results == before
      invariant i == 2 ==> results == Games(host, host.organismId, challengers[..k + 1], ids[..k + 1], precalc, play)
    {
      var hostIsWhite := i == 0;
      var key := (host.organismId, challenger.organismId, hostIsWhite);
      var result;
      if precalc.Some? && |precalc.value| > 0 && key in precalc.value {
        result := precalc.value[key];
      } else {
        result := play(host, challenger, hostIsWhite);
      }
      results := Put(results, key, result);
      assert challengers[..k + 1][..k] == challengers[..k] && ids[..k + 1][..k] == ids[..k];
    }
  }

  /** The results form a well-formed dictionary. */
  lemma {:induction false} GamesValid(host: Organism, hostId: int, cs: seq<Organism>, ids: seq<int>,
                                       precalc: Option<map<Key, int>>, play: PlayGame)
    requires |ids| == |cs|
    ensures DictValid(Games(host, hostId, cs, ids, precalc, play))
  {
    if cs != [] {
      var n := |cs| - 1;
      var before := Games(host, hostId, cs[..n], ids[..n], precalc, play);
      GamesValid(host, hostId, cs[..n], ids[..n], precalc, play);
      var white := Put(before, (hostId, ids[n], true), GameResult(host, hostId, cs[n], ids[n], true, precalc, play));
      PutValid(before, (hostId, ids[n], true), GameResult(host, hostId, cs[n], ids[n], true, precalc, play));
      PutValid(white, (hostId, ids[n], false), GameResult(host, hostId, cs[n], ids[n], false, precalc, play));
    }
  }

  /** The keys of the results are exactly (host id, c, w) for every challenger id c and
      both colours w. */
  lemma {:induction false} GamesKeys(host: Organism, hostId: int, cs: seq<Organism>, ids: seq<int>,
                                      precalc: Option<map<Key, int>>, play: PlayGame, key: Key)
    requires |ids| == |cs|
    ensures key in Games(host, hostId, cs, ids, precalc, play).entries <==> key.0 == hostId && key.1 in ids
  {
    if cs != [] {
      var n := |cs| - 1;
      var before := Games(host, hostId, cs[..n], ids[..n], precalc, play);
      GamesKeys(host, hostId, cs[..n], ids[..n], precalc, play, key);
      assert Games(host, hostId, cs, ids, precalc, play).entries.Keys
          == before.entries.Keys + {(hostId, ids[n], true), (hostId, ids[n], false)};
      assert key.1 in ids <==> key.1 in ids[..n] || key.1 == ids[n] by {
        assert ids == ids[..n] + [ids[n]];
      }
      if key.2 {
        assert key.0 == hostId && key.1 == ids[n] ==> key == (hostId, ids[n], true);
      } else {
        assert key.0 == hostId && key.1 == ids[n] ==> key == (hostId, ids[n], false);
      }
    }
  }

  /** The entry for a challenger is the result of its own game for that colour, taken from
      its last occurrence when the same id comes more than once (later writes replace
      earlier ones). */
  lemma {:induction false} GamesValue(host: Organism, hostId: int, cs: seq<Organism>, ids: seq<int>,
                                       precalc: Option<map<Key, int>>, play: PlayGame, k: nat, w: bool)
    requires |ids| == |cs| && k < |cs|
    requires forall j :: k < j < |ids| ==> ids[j] != ids[k]
    ensures (hostId, ids[k], w) in Games(host, hostId, cs, ids, precalc, play).entries
    ensures Games(host, hostId, cs, ids, precalc, play).entries[(hostId, ids[k], w)]
            == GameResult(host, hostId, cs[k], ids[k], w, precalc, play)
  {
    var n := |cs| - 1;
    if k < n {
      GamesValue(host, hostId, cs[..n], ids[..n], precalc, play, k, w);
    }
  }

  /** When every game is precomputed, the results do not depend on `play_game`: no game
      is played. */
  lemma {:induction false} PrecalcOnly(host: Organism, hostId: int, cs: seq<Organism>, ids: seq<int>,
                                        m: map<Key, int>, play1: PlayGame, play2: PlayGame)
    requires |ids| == |cs|
    requires forall k, w :: 0 <= k < |ids| ==> (hostId, ids[k], w) in m
    ensures Games(host, hostId, cs, ids, Some(m), play1) == Games(host, hostId, cs, ids, Some(m), play2)
    ensures forall key :: key in Games(host, hostId, cs, ids, Some(m), play1).entries ==>
              key in m && Games(host, hostId, cs, ids, Some(m), play1).entries[key] == m[key]
  {
    if cs != [] {
      var n := |cs| - 1;
      assert (hostId, ids[n], true) in m;
      PrecalcOnly(host, hostId, cs[..n], ids[..n], m, play1, play2);
    }
  }

  /** The games in the order they are played: for each challenger, host as white first. */
  function Schedule(hostId: int, ids: seq<int>): (s: seq<Key>)
    ensures |s| == 2 * |ids|
  {
    if ids == [] then []
    else Schedule(hostId, ids[..|ids| - 1]) + [(hostId, ids[|ids| - 1], true), (hostId, ids[|ids| - 1], false)]
  }

  /** The k-th challenger's games are the (2k)-th, as white, and the (2k+1)-th, as black. */
  lemma {:induction false} ScheduleAt(hostId: int, ids: seq<int>, k: nat)
    requires k < |ids|
    ensures Schedule(hostId, ids)[2 * k] == (hostId, ids[k], true)
    ensures Schedule(hostId, ids)[2 * k + 1] == (hostId, ids[k], false)
  {
    var n := |ids| - 1;
    if k < n {
      ScheduleAt(hostId, ids[..n], k);
    }
  }

  /** There are at most two results per challenger. */
  lemma {:induction false} GamesSize(host: Organism, hostId: int, cs: seq<Organism>, ids: seq<int>,
                                      precalc: Option<map<Key, int>>, play: PlayGame)
    requires |ids| == |cs|
    ensures |Games(host, hostId, cs, ids, precalc, play).entries.Keys| <= 2 * |cs|
  {
    if cs != [] {
      var n := |cs| - 1;
      var before := Games(host, hostId, cs[..n], ids[..n], precalc, play);
      GamesSize(host, hostId, cs[..n], ids[..n], precalc, play);
      assert Games(host, hostId, cs, ids, precalc, play).entries.Keys
          == before.entries.Keys + {(hostId, ids[n], true), (hostId, ids[n], false)};
    }
  }

  /** With distinct challenger ids, the results hold exactly two games per challenger, in
      the order they are played. */
  lemma {:induction false} GamesOrder(host: Organism, hostId: int, cs: seq<Organism>, ids: seq<int>,
                                       precalc: Option<map<Key, int>>, play: PlayGame)
    requires |ids| == |cs|
    requires forall i, j :: 0 <= i < j < |ids| ==> ids[i] != ids[j]
    ensures Games(host, hostId, cs, ids, precalc, play).order == Schedule(hostId, ids)
    ensures |Games(host, hostId, cs, ids, precalc, play).entries.Keys| == 2 * |cs|
  {
    GamesValid(host, hostId, cs, ids, precalc, play);
    if cs != [] {
      var n := |cs| - 1;
      GamesOrder(host, hostId, cs[..n], ids[..n], precalc, play);
      GamesKeys(host, hostId, cs[..n], ids[..n], precalc, play, (hostId, ids[n], true));
      GamesKeys(host, hostId, cs[..n], ids[..n], precalc, play, (hostId, ids[n], false));
      assert ids[n] !in ids[..n];
    }
  }
}
