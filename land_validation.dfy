/** The land validation job: for every province whose validation was requested,
    sample twenty of its chunks, count the biome kinds, decide whether the province
    is sea, wasteland or civilized land, record the four proportions and clear the
    request; with the sweep's handling of stop, pause and restart requests. */
module LandValidation {
  import opened Objects

  /** The biome kinds a sample can report; a sample of an unrecognised biome is `None`. */
  datatype BiomeType = GoodLand | Water | HotLand | ColdLand

  datatype ProvinceType = Civilized | Sea | Wasteland

  /** The land validation job's status, as its controller reports it. */
  datatype JobStatus = StartRequested | Started | PauseRequested | Paused | StopRequested | Stopped | RestartRequested

  /** The province record the job reads and writes. */
  datatype Province = Province(
    cells: seq<Coord>,
    landValidationRequested: bool,
    provinceType: ProvinceType,
    goodLand: real,
    water: real,
    hotLand: real,
    coldLand: real)

  /** How many chunks one validation samples. */
  const TotalChunksToScan: nat := 20

  type Sample = Option<BiomeType>

  /** The number of samples of kind `t`. */
  function CountOf(s: seq<Sample>, t: BiomeType): nat
  {
    if |s| == 0 then 0 else CountOf(s[..|s| - 1], t) + (if s[|s| - 1] == Some(t) then 1 else 0)
  }

  /** The number of samples of an unrecognised biome. */
  function CountUnknown(s: seq<Sample>): nat
  {
    if |s| == 0 then 0 else CountUnknown(s[..|s| - 1]) + (if s[|s| - 1] == None then 1 else 0)
  }

  datatype Counts = Counts(goodLand: nat, water: nat, hotLand: nat, coldLand: nat)

  function Tally(s: seq<Sample>): Counts {
    Counts(CountOf(s, GoodLand), CountOf(s, Water), CountOf(s, HotLand), CountOf(s, ColdLand))
  }

  /** Every sample is counted once: under its kind, or as unrecognised. */
  lemma {:induction false} TallyTotal(s: seq<Sample>)
    ensures var c := Tally(s); c.goodLand + c.water + c.hotLand + c.coldLand + CountUnknown(s) == |s|
  {
    if |s| > 0 {
      var init := s[..|s| - 1];
      TallyTotal(init);
      assert Tally(s).goodLand == CountOf(init, GoodLand) + (if s[|s| - 1] == Some(GoodLand) then 1 else 0);
      assert Tally(s).water == CountOf(init, Water) + (if s[|s| - 1] == Some(Water) then 1 else 0);
      assert Tally(s).hotLand == CountOf(init, HotLand) + (if s[|s| - 1] == Some(HotLand) then 1 else 0);
      assert Tally(s).coldLand == CountOf(init, ColdLand) + (if s[|s| - 1] == Some(ColdLand) then 1 else 0);
      assert CountUnknown(s) == CountUnknown(init) + (if s[|s| - 1] == None then 1 else 0);
      match s[|s| - 1]
      case None =>
      case Some(GoodLand) =>
      case Some(Water) =>
      case Some(HotLand) =>
      case Some(ColdLand) =>
    }
  }

  /** A kind is counted for every sample exactly when every sample is of that kind. */
  lemma {:induction false} CountAll(s: seq<Sample>, t: BiomeType)
    ensures CountOf(s, t) <= |s|
    ensures CountOf(s, t) == |s| <==> forall i :: 0 <= i < |s| ==> s[i] == Some(t)
  {
    if |s| > 0 {
      var init := s[..|s| - 1];
      CountAll(init, t);
      if forall i :: 0 <= i < |s| ==> s[i] == Some(t) {
        assert forall i :: 0 <= i < |init| ==> init[i] == s[i];
      }
      if CountOf(s, t) == |s| {
        forall i | 0 <= i < |s| ensures s[i] == Some(t) {
          if i < |init| {
            assert init[i] == s[i];
          }
        }
      }
    }
  }

  /** A kind is counted zero times exactly when no sample is of that kind. */
  lemma {:induction false} CountNone(s: seq<Sample>, t: BiomeType)
    ensures CountOf(s, t) == 0 <==> forall i :: 0 <= i < |s| ==> s[i] != Some(t)
  {
    if |s| > 0 {
      var init := s[..|s| - 1];
      CountNone(init, t);
      if CountOf(s, t) == 0 {
        forall i | 0 <= i < |s| ensures s[i] != Some(t) {
          if i < |init| {
            assert init[i] == s[i];
          }
        }
      }
      if forall i :: 0 <= i < |s| ==> s[i] != Some(t) {
        assert forall i :: 0 <= i < |init| ==> init[i] == s[i];
      }
    }
  }

  /** The type decision over the four counts. */
  function Classify(c: Counts): ProvinceType {
    if c.water == TotalChunksToScan then Sea
    else if c.goodLand == 0 then Wasteland
    else Civilized
  }

  /** On twenty samples: sea exactly when every sample is water; wasteland exactly when
      some sample is not water and none is good land; civilized otherwise, that is
      exactly when some sample is good land. */
  lemma ClassifySamples(s: seq<Sample>)
    requires |s| == TotalChunksToScan
    ensures Classify(Tally(s)) == Sea <==> forall i :: 0 <= i < |s| ==> s[i] == Some(Water)
    ensures Classify(Tally(s)) == Wasteland <==>
      (exists i :: 0 <= i < |s| && s[i] != Some(Water)) && forall i :: 0 <= i < |s| ==> s[i] != Some(GoodLand)
    ensures Classify(Tally(s)) == Civilized <==> exists i :: 0 <= i < |s| && s[i] == Some(GoodLand)
  {
    CountAll(s, Water);
    CountNone(s, GoodLand);
    if exists i :: 0 <= i < |s| && s[i] == Some(GoodLand) {
      var i :| 0 <= i < |s| && s[i] == Some(GoodLand);
      assert s[i] != Some(Water);
    }
  }

  /** A count as a proportion of the samples taken; the denominator is always twenty,
      whatever number of samples was recognised. */
  function Proportion(count: nat): real {
    count as real / TotalChunksToScan as real
  }

  /** The four proportions of twenty samples lie in [0, 1], add up to at most 1, and
      add up to exactly 1 when every sample was recognised. */
  lemma ProportionsBounded(s: seq<Sample>)
    requires |s| == TotalChunksToScan
    ensures var c := Tally(s);
      && 0.0 <= Proportion(c.goodLand) <= 1.0 && 0.0 <= Proportion(c.water) <= 1.0
      && 0.0 <= Proportion(c.hotLand) <= 1.0 && 0.0 <= Proportion(c.coldLand) <= 1.0
      && Proportion(c.goodLand) + Proportion(c.water) + Proportion(c.hotLand) + Proportion(c.coldLand) <= 1.0
      && (CountUnknown(s) == 0 ==>
            Proportion(c.goodLand) + Proportion(c.water) + Proportion(c.hotLand) + Proportion(c.coldLand) == 1.0)
  {
    TallyTotal(s);
    var c := Tally(s);
    var t := c.goodLand + c.water + c.hotLand + c.coldLand;
    assert Proportion(c.goodLand) + Proportion(c.water) + Proportion(c.hotLand) + Proportion(c.coldLand)
        == t as real / 20.0;
  }

  /** The twenty samples of province `p`: sample `i` is the biome of the cell at its
      `i`-th random draw `pick(p, i)`, reduced to the cell list's size as a bounded
      random draw is. */
  function Samples(cells: seq<Coord>, biomeOf: Coord -> Sample, pick: (ProvinceId, nat) -> nat, p: ProvinceId): (s: seq<Sample>)
    requires |cells| > 0
    ensures |s| == TotalChunksToScan
  {
    seq(TotalChunksToScan, i requires 0 <= i < TotalChunksToScan => biomeOf(cells[pick(p, i) % |cells|]))
  }

  /** Province `p` as a validation leaves it. */
  function Outcome(pr: Province, p: ProvinceId, biomeOf: Coord -> Sample, pick: (ProvinceId, nat) -> nat): Province
    requires |pr.cells| > 0
  {
    Validated(pr, Tally(Samples(pr.cells, biomeOf, pick, p)))
  }

  /** A stop or restart request was read after one of the first `k` provinces. */
  predicate ClearSeen(statusAt: nat -> JobStatus, k: nat) {
    k > 0 && (ClearSeen(statusAt, k - 1) || Clears(statusAt(k - 1)))
  }

  lemma {:induction false} ClearSeenMeans(statusAt: nat -> JobStatus, k: nat)
    ensures ClearSeen(statusAt, k) <==> exists j :: 0 <= j < k && Clears(statusAt(j))
  {
    if k > 0 {
      ClearSeenMeans(statusAt, k - 1);
    }
  }

  /** Once seen, a stop or restart stays seen. */
  lemma {:induction false} ClearSeenMono(statusAt: nat -> JobStatus, j: nat, k: nat)
    requires j <= k
    ensures ClearSeen(statusAt, j) ==> ClearSeen(statusAt, k)
  {
    if j < k {
      ClearSeenMono(statusAt, j, k - 1);
    }
  }

  /** The province after a validation with counts `c`: type and proportions set,
      request cleared, everything else as before. */
  function Validated(pr: Province, c: Counts): (r: Province)
    ensures r.cells == pr.cells && !r.landValidationRequested
  {
    pr.(provinceType := Classify(c),
        goodLand := Proportion(c.goodLand), water := Proportion(c.water),
        hotLand := Proportion(c.hotLand), coldLand := Proportion(c.coldLand),
        landValidationRequested := false)
  }

  /** The status values on which the sweep clears every request. */
  predicate Clears(status: JobStatus) {
    status == StopRequested || status == RestartRequested
  }

  /** The provinces of `m` with every request set, as the job leaves them when it
      finds none pending. */
  function RequestAll(m: map<ProvinceId, Province>): map<ProvinceId, Province> {
    map p | p in m :: m[p].(landValidationRequested := true)
  }

  /** `order` lists each key of `m` once. */
  ghost predicate Lists(order: seq<ProvinceId>, m: map<ProvinceId, Province>) {
    && (forall i, j :: 0 <= i < j < |order| ==> order[i] != order[j])
    && (forall p :: p in m <==> p in order)
  }

  /** At its turn province `pr` is validated: the world is present, its request is
      set and it has cells to sample. */
  predicate Validates(pr: Province, worldPresent: bool) {
    worldPresent && pr.landValidationRequested && |pr.cells| > 0
  }

  /** At its turn province `pr` ends the job: the world is present and its request is
      set, but it has no cell, so the first bounded random draw over its empty cell
      list throws, and the exception leaves the sweep and the job. */
  predicate Aborts(pr: Province, worldPresent: bool) {
    worldPresent && pr.landValidationRequested && |pr.cells| == 0
  }

  /** What one turn of the sweep does to the provinces `m0` and the save log `log0`,
      leaving `m1` and `log1`, where `ok` says the turn completed: an aborting turn
      changes nothing; otherwise province `p` holds its outcome when it is validated,
      a clearing status clears every request, and nothing else changes. */
  ghost predicate TurnEffect(m0: map<ProvinceId, Province>, log0: seq<ProvinceId>,
                             m1: map<ProvinceId, Province>, log1: seq<ProvinceId>,
                             p: ProvinceId, worldPresent: bool, biomeOf: Coord -> Sample,
                             pick: (ProvinceId, nat) -> nat, status: JobStatus, ok: bool)
    requires p in m0
  {
    var validated := Validates(m0[p], worldPresent);
    && (ok <==> !Aborts(m0[p], worldPresent))
    && (!ok ==> m1 == m0 && log1 == log0)
    && m1.Keys == m0.Keys
    && log0 <= log1
    && (validated ==> m1[p] == Outcome(m0[p], p, biomeOf, pick))
    && (!validated ==> m1[p] == m0[p].(landValidationRequested := m1[p].landValidationRequested))
    && (forall q :: q in m1 && q != p ==> m1[q] == m0[q].(landValidationRequested := m1[q].landValidationRequested))
    && (ok && Clears(status) ==> forall q :: q in m1 ==> !m1[q].landValidationRequested)
    && (!Clears(status) ==> forall q :: q in m1 && q != p ==> m1[q] == m0[q])
    && (!Clears(status) && !validated ==> m1 == m0 && log1 == log0)
  }

  /** The sweep's invariant after the first `k` turns, all completed, from provinces
      `p0` and save log `log0` to `m` and `log`: the state part and the part about
      each province's fate. */
  ghost predicate SweepInv(p0: map<ProvinceId, Province>, log0: seq<ProvinceId>,
                           m: map<ProvinceId, Province>, log: seq<ProvinceId>,
                           order: seq<ProvinceId>, k: nat, worldPresent: bool, biomeOf: Coord -> Sample,
                           pick: (ProvinceId, nat) -> nat, statusAt: nat -> JobStatus)
    requires Lists(order, p0) && k <= |order|
  {
    && SweepState(p0, log0, m, log, order, k, worldPresent, statusAt)
    && SweepFates(p0, m, order, k, worldPresent, biomeOf, pick, statusAt)
  }

  /** Keys and cells kept, requests cleared where the sweep cleared them, the
      provinces not reached yet untouched, and no turn so far aborted. */
  ghost predicate SweepState(p0: map<ProvinceId, Province>, log0: seq<ProvinceId>,
                             m: map<ProvinceId, Province>, log: seq<ProvinceId>,
                             order: seq<ProvinceId>, k: nat, worldPresent: bool, statusAt: nat -> JobStatus)
    requires Lists(order, p0) && k <= |order|
  {
    && m.Keys == p0.Keys
    && (forall p :: p in m ==> m[p].cells == p0[p].cells)
    && log0 <= log
    && (forall j :: 0 <= j < k ==> ClearSeen(statusAt, j) || !Aborts(p0[order[j]], worldPresent))
    && (ClearSeen(statusAt, k) ==> forall p :: p in m ==> !m[p].landValidationRequested)
    && (worldPresent ==> forall j :: 0 <= j < k ==> !m[order[j]].landValidationRequested)
    && (!ClearSeen(statusAt, k) ==> forall j :: k <= j < |order| ==> m[order[j]] == p0[order[j]])
    && (!worldPresent && !ClearSeen(statusAt, k) ==> m == p0 && log == log0)
  }

  /** Each province validated in the first `k` turns holds its outcome; every other
      province is as in `p0` but for its request flag. */
  ghost predicate SweepFates(p0: map<ProvinceId, Province>, m: map<ProvinceId, Province>,
                             order: seq<ProvinceId>, k: nat, worldPresent: bool, biomeOf: Coord -> Sample,
                             pick: (ProvinceId, nat) -> nat, statusAt: nat -> JobStatus)
    requires Lists(order, p0) && k <= |order|
    requires m.Keys == p0.Keys
  {
    forall j :: 0 <= j < |order| ==>
      if j < k && !ClearSeen(statusAt, j) && Validates(p0[order[j]], worldPresent)
      then m[order[j]] == Outcome(p0[order[j]], order[j], biomeOf, pick)
      else m[order[j]] == p0[order[j]].(landValidationRequested := m[order[j]].landValidationRequested)
  }

  /** A completed turn keeps the sweep's invariant. */
  lemma SweepTurnKeeps(p0: map<ProvinceId, Province>, log0: seq<ProvinceId>,
                  m: map<ProvinceId, Province>, log: seq<ProvinceId>,
                  m1: map<ProvinceId, Province>, log1: seq<ProvinceId>,
                  order: seq<ProvinceId>, k: nat, worldPresent: bool, biomeOf: Coord -> Sample,
                  pick: (ProvinceId, nat) -> nat, statusAt: nat -> JobStatus)
    requires Lists(order, p0) && k < |order|
    requires SweepInv(p0, log0, m, log, order, k, worldPresent, biomeOf, pick, statusAt)
    requires TurnEffect(m, log, m1, log1, order[k], worldPresent, biomeOf, pick, statusAt(k), true)
    ensures SweepInv(p0, log0, m1, log1, order, k + 1, worldPresent, biomeOf, pick, statusAt)
  {
    SweepStateStep(p0, log0, m, log, m1, log1, order, k, worldPresent, biomeOf, pick, statusAt);
    SweepFatesStep(p0, log0, m, log, m1, log1, order, k, worldPresent, biomeOf, pick, statusAt);
  }

  lemma SweepStateStep(p0: map<ProvinceId, Province>, log0: seq<ProvinceId>,
                       m: map<ProvinceId, Province>, log: seq<ProvinceId>,
                       m1: map<ProvinceId, Province>, log1: seq<ProvinceId>,
                       order: seq<ProvinceId>, k: nat, worldPresent: bool, biomeOf: Coord -> Sample,
                       pick: (ProvinceId, nat) -> nat, statusAt: nat -> JobStatus)
    requires Lists(order, p0) && k < |order|
    requires SweepState(p0, log0, m, log, order, k, worldPresent, statusAt)
    requires TurnEffect(m, log, m1, log1, order[k], worldPresent, biomeOf, pick, statusAt(k), true)
    ensures SweepState(p0, log0, m1, log1, order, k + 1, worldPresent, statusAt)
  {
    var p := order[k];
    assert ClearSeen(statusAt, k + 1) == (ClearSeen(statusAt, k) || Clears(statusAt(k)));
    if !ClearSeen(statusAt, k) {
      assert m[p] == p0[p];
    }
    if !ClearSeen(statusAt, k + 1) {
      forall j | k + 1 <= j < |order| ensures m1[order[j]] == p0[order[j]] {
        assert order[j] != p;
      }
    }
    if worldPresent {
      forall j | 0 <= j < k + 1 ensures !m1[order[j]].landValidationRequested {
        if j < k {
          assert order[j] != p;
        }
      }
    }
  }

  lemma SweepFatesStep(p0: map<ProvinceId, Province>, log0: seq<ProvinceId>,
                       m: map<ProvinceId, Province>, log: seq<ProvinceId>,
                       m1: map<ProvinceId, Province>, log1: seq<ProvinceId>,
                       order: seq<ProvinceId>, k: nat, worldPresent: bool, biomeOf: Coord -> Sample,
                       pick: (ProvinceId, nat) -> nat, statusAt: nat -> JobStatus)
    requires Lists(order, p0) && k < |order|
    requires SweepState(p0, log0, m, log, order, k, worldPresent, statusAt)
    requires SweepFates(p0, m, order, k, worldPresent, biomeOf, pick, statusAt)
    requires TurnEffect(m, log, m1, log1, order[k], worldPresent, biomeOf, pick, statusAt(k), true)
    ensures SweepFates(p0, m1, order, k + 1, worldPresent, biomeOf, pick, statusAt)
  {
    var p := order[k];
    forall j | 0 <= j < |order|
      ensures if j < k + 1 && !ClearSeen(statusAt, j) && Validates(p0[order[j]], worldPresent)
              then m1[order[j]] == Outcome(p0[order[j]], order[j], biomeOf, pick)
              else m1[order[j]] == p0[order[j]].(landValidationRequested := m1[order[j]].landValidationRequested)
    {
      if j != k {
        assert order[j] != p;
      }
    }
  }

  /** What the sweep's invariant says once the sweep ends after `k` turns, either
      completed (`ok`) or aborted at turn `k`. */
  lemma SweepEnds(p0: map<ProvinceId, Province>, log0: seq<ProvinceId>,
                  m: map<ProvinceId, Province>, log: seq<ProvinceId>,
                  order: seq<ProvinceId>, k: nat, ok: bool, worldPresent: bool, biomeOf: Coord -> Sample,
                  pick: (ProvinceId, nat) -> nat, statusAt: nat -> JobStatus)
    requires Lists(order, p0) && k <= |order|
    requires SweepInv(p0, log0, m, log, order, k, worldPresent, biomeOf, pick, statusAt)
    requires ok <==> k == |order|
    requires !ok ==> !ClearSeen(statusAt, k) && Aborts(p0[order[k]], worldPresent)
    ensures !ok ==> forall j :: k <= j < |order| ==> m[order[j]] == p0[order[j]]
    ensures (ok && worldPresent) || ClearSeen(statusAt, k) ==> forall p :: p in m ==> !m[p].landValidationRequested
    ensures !worldPresent && !ClearSeen(statusAt, |order|) ==> m == p0 && log == log0
  {
    if ok && worldPresent {
      forall p | p in m ensures !m[p].landValidationRequested {
        assert p in order;
      }
    }
  }

  /** When the sweep starts from `p1`, which differs from `m0` only in request flags,
      every province ends as its outcome or as in `m0` but for its flag. */
  lemma FatesFromStart(m0: map<ProvinceId, Province>, p1: map<ProvinceId, Province>, m: map<ProvinceId, Province>,
                       order: seq<ProvinceId>, done: nat, worldPresent: bool, biomeOf: Coord -> Sample,
                       pick: (ProvinceId, nat) -> nat, statusAt: nat -> JobStatus)
    requires Lists(order, p1) && done <= |order|
    requires p1.Keys == m0.Keys && m.Keys == p1.Keys
    requires forall p :: p in p1 ==> p1[p] == m0[p].(landValidationRequested := p1[p].landValidationRequested)
    requires SweepFates(p1, m, order, done, worldPresent, biomeOf, pick, statusAt)
    ensures forall p :: p in m ==>
      || m[p] == m0[p].(landValidationRequested := m[p].landValidationRequested)
      || (|m0[p].cells| > 0 && m[p] == Outcome(m0[p], p, biomeOf, pick))
  {
    forall p | p in m
      ensures || m[p] == m0[p].(landValidationRequested := m[p].landValidationRequested)
              || (|m0[p].cells| > 0 && m[p] == Outcome(m0[p], p, biomeOf, pick))
    {
      var k :| 0 <= k < |order| && order[k] == p;
    }
  }

  /** When every province was requested at the start (`p1` is `m0` with every flag
      set), the world is present, no turn aborted and no stop or restart came, the
      completed sweep leaves every province holding its outcome. */
  lemma AllValidated(m0: map<ProvinceId, Province>, p1: map<ProvinceId, Province>, m: map<ProvinceId, Province>,
                     order: seq<ProvinceId>, worldPresent: bool, biomeOf: Coord -> Sample,
                     pick: (ProvinceId, nat) -> nat, statusAt: nat -> JobStatus)
    requires Lists(order, p1)
    requires p1.Keys == m0.Keys && m.Keys == p1.Keys
    requires forall p :: p in p1 ==> p1[p] == m0[p].(landValidationRequested := true)
    requires worldPresent && !ClearSeen(statusAt, |order|)
    requires forall j :: 0 <= j < |order| ==> ClearSeen(statusAt, j) || !Aborts(p1[order[j]], worldPresent)
    requires SweepFates(p1, m, order, |order|, worldPresent, biomeOf, pick, statusAt)
    ensures forall p :: p in m ==> |m0[p].cells| > 0 && m[p] == Outcome(m0[p], p, biomeOf, pick)
  {
    forall p | p in m ensures |m0[p].cells| > 0 && m[p] == Outcome(m0[p], p, biomeOf, pick) {
      var k :| 0 <= k < |order| && order[k] == p;
      ClearSeenMono(statusAt, k, |order|);
    }
  }

  /** An aborted turn changes nothing, and it aborts because province `order[k]`
      aborts as it was at the start, before any stop or restart. */
  lemma SweepTurnAborts(p0: map<ProvinceId, Province>, log0: seq<ProvinceId>,
                        m: map<ProvinceId, Province>, log: seq<ProvinceId>,
                        m1: map<ProvinceId, Province>, log1: seq<ProvinceId>,
                        order: seq<ProvinceId>, k: nat, worldPresent: bool, biomeOf: Coord -> Sample,
                        pick: (ProvinceId, nat) -> nat, statusAt: nat -> JobStatus)
    requires Lists(order, p0) && k < |order|
    requires SweepInv(p0, log0, m, log, order, k, worldPresent, biomeOf, pick, statusAt)
    requires TurnEffect(m, log, m1, log1, order[k], worldPresent, biomeOf, pick, statusAt(k), false)
    ensures m1 == m && log1 == log
    ensures !ClearSeen(statusAt, k) && Aborts(p0[order[k]], worldPresent)
  {
    assert m[order[k]].landValidationRequested;
  }

  /** The flag sweep's invariant: the provinces still in `todo` are as they were in
      `p0`, the others have their flag set to `value`, and the saves after `log0` are
      exactly the provinces done whose flag changed, each once. */
  ghost predicate FlagsSet(p0: map<ProvinceId, Province>, log0: seq<ProvinceId>,
                           m: map<ProvinceId, Province>, log: seq<ProvinceId>,
                           todo: set<ProvinceId>, value: bool)
  {
    && todo <= p0.Keys && m.Keys == p0.Keys
    && (forall p :: p in todo ==> m[p] == p0[p])
    && (forall p :: p in m && p !in todo ==> m[p] == p0[p].(landValidationRequested := value))
    && log0 <= log
    && (forall p :: p in log[|log0|..] <==> p in p0 && p !in todo && p0[p].landValidationRequested != value)
    && (forall i, j :: |log0| <= i < j < |log| ==> log[i] != log[j])
  }

  /** Setting the flag of one more province keeps the flag sweep's invariant. */
  lemma FlagsSetStep(p0: map<ProvinceId, Province>, log0: seq<ProvinceId>,
                     m: map<ProvinceId, Province>, log: seq<ProvinceId>,
                     todo: set<ProvinceId>, p: ProvinceId, value: bool)
    requires FlagsSet(p0, log0, m, log, todo, value) && p in todo
    ensures FlagsSet(p0, log0, m[p := m[p].(landValidationRequested := value)],
                     if m[p].landValidationRequested != value then log + [p] else log, todo - {p}, value)
  {
    if m[p].landValidationRequested != value {
      assert (log + [p])[|log0|..] == log[|log0|..] + [p];
    }
  }

  class LandValidationTask {
    /** The data holder's provinces. */
    var provinces: map<ProvinceId, Province>
    /** Every save of a province, in order. */
    var saveLog: seq<ProvinceId>

    constructor (provinces: map<ProvinceId, Province>)
      ensures this.provinces == provinces && saveLog == []
    {
      this.provinces := provinces;
      saveLog := [];
    }

    /** Some province has its validation requested. */
    predicate AnyValidationsPending()
      reads this
    {
      exists p :: p in provinces && provinces[p].landValidationRequested
    }

    /** Sets every province's request flag to `value`, saving exactly the provinces
        whose flag changed (each once). Nothing else changes. */
    method SetLandValidationRequestsForAllProvinces(value: bool)
      modifies this
      ensures provinces.Keys == old(provinces).Keys
      ensures forall p :: p in provinces ==> provinces[p] == old(provinces)[p].(landValidationRequested := value)
      ensures old(saveLog) <= saveLog
      ensures forall p :: p in saveLog[|old(saveLog)|..] <==> p in old(provinces) && old(provinces)[p].landValidationRequested != value
      ensures forall i, j :: |old(saveLog)| <= i < j < |saveLog| ==> saveLog[i] != saveLog[j]
    {
      ghost var p0, log0 := provinces, saveLog;
      var todo := provinces.Keys;
      while todo != {}
        invariant FlagsSet(p0, log0, provinces, saveLog, todo, value)
        decreases |todo|
      {
        var p :| p in todo;
        FlagsSetStep(p0, log0, provinces, saveLog, todo, p, value);
        SetLandValidationRequest(p, value);
        todo := todo - {p};
      }
    }

    /** The body of the sweep above for province `p`: its flag is set to `value`, and it
        is saved when that changed the flag. */
    method SetLandValidationRequest(p: ProvinceId, value: bool)
      requires p in provinces
      modifies this
      ensures provinces == old(provinces)[p := old(provinces)[p].(landValidationRequested := value)]
      ensures saveLog == if old(provinces)[p].landValidationRequested != value then old(saveLog) + [p] else old(saveLog)
    {
      if provinces[p].landValidationRequested != value {
        provinces := provinces[p := provinces[p].(landValidationRequested := value)];
        saveLog := saveLog + [p];
      }
    }

    /** The sampling loop: takes the twenty samples and counts each recognised kind. */
    method CountSamples(cells: seq<Coord>, biomeOf: Coord -> Sample, pick: (ProvinceId, nat) -> nat, p: ProvinceId)
      returns (c: Counts)
      requires |cells| > 0
      ensures c == Tally(Samples(cells, biomeOf, pick, p))
    {
      ghost var s := Samples(cells, biomeOf, pick, p);
      var goodLand, water, hotLand, coldLand := 0, 0, 0, 0;
      var i := 0;
      while i < TotalChunksToScan
        invariant 0 <= i <= TotalChunksToScan
        invariant Counts(goodLand, water, hotLand, coldLand) == Tally(s[..i])
      {
        var biomeType := biomeOf(cells[pick(p, i) % |cells|]);
        assert s[..i + 1][..i] == s[..i] && s[..i + 1][i] == biomeType;
        match biomeType {
          case Some(GoodLand) => goodLand := goodLand + 1;
          case Some(Water) => water := water + 1;
          case Some(HotLand) => hotLand := hotLand + 1;
          case Some(ColdLand) => coldLand := coldLand + 1;
          case None =>
        }
        i := i + 1;
      }
      assert s[..i] == s;
      return Counts(goodLand, water, hotLand, coldLand);
    }

    /** Validates province `p`, returning whether it completed. When the world is
        missing nothing changes at all. When the province has no cell, the first
        bounded random draw throws: nothing changes and the call fails. Otherwise twenty
        samples are counted, the province gets the type and the proportions of that
        count with its request cleared, and it is saved. */
    method DoLandValidation(p: ProvinceId, worldPresent: bool, biomeOf: Coord -> Sample, pick: (ProvinceId, nat) -> nat)
      returns (ok: bool)
      requires p in provinces
      modifies this
      ensures ok <==> !worldPresent || |old(provinces)[p].cells| > 0
      ensures !worldPresent || !ok ==> provinces == old(provinces) && saveLog == old(saveLog)
      ensures worldPresent && ok ==>
        && provinces == old(provinces)[p := Outcome(old(provinces)[p], p, biomeOf, pick)]
        && saveLog == old(saveLog) + [p]
    {
      var cells := provinces[p].cells;
      if !worldPresent {
        return true;
      }
      if |cells| == 0 {
        return false;
      }
      var c := CountSamples(cells, biomeOf, pick, p);
      provinces := provinces[p := provinces[p].(provinceType := Classify(c),
        goodLand := Proportion(c.goodLand), water := Proportion(c.water),
        hotLand := Proportion(c.hotLand), coldLand := Proportion(c.coldLand),
        landValidationRequested := false)];
      saveLog := saveLog + [p];
      return true;
    }

    /** The validation sweep over a snapshot of the province set, in `order`. Each
        province whose request is still set at its turn is validated; after each
        province the job status is read (`statusAt(k)`), and a stop or restart
        request clears every request, while a pause request, like the other states,
        only ends that iteration. A province that aborts (requested, world present,
        no cell) ends the sweep at its turn `done` with nothing of that turn done;
        `ok` says the sweep went through every province. Afterwards: no request is
        pending when the sweep completed with the world present, or a stop or restart
        was seen; with no world and no such request, nothing changes; each province
        validated at its turn holds the outcome of its validation, and every other
        province is as it was but for its request flag. */
    method ExecuteLandValidation(order: seq<ProvinceId>, worldPresent: bool, biomeOf: Coord -> Sample,
                                 pick: (ProvinceId, nat) -> nat, statusAt: nat -> JobStatus)
      returns (ok: bool, ghost done: nat)
      requires Lists(order, provinces)
      modifies this
      ensures provinces.Keys == old(provinces).Keys
      ensures forall p :: p in provinces ==> provinces[p].cells == old(provinces)[p].cells
      ensures done <= |order| && (ok <==> done == |order|)
      ensures forall j :: 0 <= j < done ==> ClearSeen(statusAt, j) || !Aborts(old(provinces)[order[j]], worldPresent)
      ensures !ok ==> !ClearSeen(statusAt, done) && Aborts(old(provinces)[order[done]], worldPresent)
      ensures !ok ==> forall j :: done <= j < |order| ==> provinces[order[j]] == old(provinces)[order[j]]
      ensures (ok && worldPresent) || ClearSeen(statusAt, done) ==>
        forall p :: p in provinces ==> !provinces[p].landValidationRequested
      ensures !worldPresent && !ClearSeen(statusAt, |order|) ==> provinces == old(provinces) && saveLog == old(saveLog)
      ensures forall j :: 0 <= j < |order| ==>
        if j < done && !ClearSeen(statusAt, j) && Validates(old(provinces)[order[j]], worldPresent)
        then provinces[order[j]] == Outcome(old(provinces)[order[j]], order[j], biomeOf, pick)
        else provinces[order[j]] == old(provinces)[order[j]].(landValidationRequested := provinces[order[j]].landValidationRequested)
      ensures old(saveLog) <= saveLog
    {
      ghost var p0, log0 := provinces, saveLog;
      ok, done := Sweep(order, worldPresent, biomeOf, pick, statusAt);
      SweepEnds(p0, log0, provinces, saveLog, order, done, ok, worldPresent, biomeOf, pick, statusAt);
    }

    /** The sweep's loop: one turn per province of `order` until a turn aborts; it
        keeps the sweep's invariant up to the turn `done` where it ended. */
    method Sweep(order: seq<ProvinceId>, worldPresent: bool, biomeOf: Coord -> Sample,
                 pick: (ProvinceId, nat) -> nat, statusAt: nat -> JobStatus)
      returns (ok: bool, ghost done: nat)
      requires Lists(order, provinces)
      modifies this
      ensures done <= |order| && (ok <==> done == |order|)
      ensures SweepInv(old(provinces), old(saveLog), provinces, saveLog, order, done, worldPresent, biomeOf, pick, statusAt)
      ensures !ok ==> !ClearSeen(statusAt, done) && Aborts(old(provinces)[order[done]], worldPresent)
    {
      ghost var p0, log0 := provinces, saveLog;
      var k := 0;
      while k < |order|
        invariant 0 <= k <= |order|
        invariant SweepInv(p0, log0, provinces, saveLog, order, k, worldPresent, biomeOf, pick, statusAt)
      {
        var p := order[k];
        ghost var m, log := provinces, saveLog;
        var turnOk := SweepTurn(p, worldPresent, biomeOf, pick, statusAt(k));
        if !turnOk {
          SweepTurnAborts(p0, log0, m, log, provinces, saveLog, order, k, worldPresent, biomeOf, pick, statusAt);
          return false, k;
        }
        SweepTurnKeeps(p0, log0, m, log, provinces, saveLog, order, k, worldPresent, biomeOf, pick, statusAt);
        k := k + 1;
      }
      return true, k;
    }

    /** One turn of the sweep: province `p` is validated when its request is set,
        then a stop or restart status clears every request. When the validation
        throws, the turn ends there with `ok` false. */
    method SweepTurn(p: ProvinceId, worldPresent: bool, biomeOf: Coord -> Sample,
                     pick: (ProvinceId, nat) -> nat, status: JobStatus)
      returns (ok: bool)
      requires p in provinces
      modifies this
      ensures TurnEffect(old(provinces), old(saveLog), provinces, saveLog, p, worldPresent, biomeOf, pick, status, ok)
    {
      if provinces[p].landValidationRequested {
        ok := DoLandValidation(p, worldPresent, biomeOf, pick);
        if !ok {
          return;
        }
      }
      ok := true;
      if status == StopRequested || status == RestartRequested {
        SetLandValidationRequestsForAllProvinces(false);
      }
    }

    /** The job's entry point: when no province has a request pending, every province
        is requested first; then the sweep runs, and `ok` says it was not aborted.
        With `start` the provinces as the sweep finds them: the job aborts exactly
        when some province aborts at its turn before any stop or restart; a completed
        job with the world present leaves no request pending; with no world and no
        stop or restart, the provinces are `start` and exactly the newly requested
        provinces were saved; every province holds the outcome of its validation or
        is as it was but for its request flag; and when nothing was pending, the
        world is present and the job completed without a stop or restart, every
        province holds the outcome of its validation. */
    method Run(order: seq<ProvinceId>, worldPresent: bool, biomeOf: Coord -> Sample,
               pick: (ProvinceId, nat) -> nat, statusAt: nat -> JobStatus)
      returns (ok: bool)
      requires Lists(order, provinces)
      modifies this
      ensures provinces.Keys == old(provinces).Keys
      ensures old(saveLog) <= saveLog
      ensures var start := if old(AnyValidationsPending()) then old(provinces) else RequestAll(old(provinces));
        ok <==> forall j :: 0 <= j < |order| ==> ClearSeen(statusAt, j) || !Aborts(start[order[j]], worldPresent)
      ensures ok && worldPresent ==> forall p :: p in provinces ==> !provinces[p].landValidationRequested
      ensures !worldPresent && !ClearSeen(statusAt, |order|) ==>
        && provinces == (if old(AnyValidationsPending()) then old(provinces) else RequestAll(old(provinces)))
        && forall p :: p in saveLog[|old(saveLog)|..] <==> p in old(provinces) && !old(AnyValidationsPending())
      ensures forall p :: p in provinces ==>
        || provinces[p] == old(provinces)[p].(landValidationRequested := provinces[p].landValidationRequested)
        || (|old(provinces)[p].cells| > 0 && provinces[p] == Outcome(old(provinces)[p], p, biomeOf, pick))
      ensures ok && worldPresent && !old(AnyValidationsPending()) && !ClearSeen(statusAt, |order|) ==>
        forall p :: p in provinces ==> |old(provinces)[p].cells| > 0 && provinces[p] == Outcome(old(provinces)[p], p, biomeOf, pick)
    {
      var pending := AnyValidationsPendingScan(order);
      if !pending {
        SetLandValidationRequestsForAllProvinces(true);
      }
      ghost var p1 := provinces;
      ghost var log1 := saveLog;
      assert p1 == if old(AnyValidationsPending()) then old(provinces) else RequestAll(old(provinces));
      ghost var done;
      ok, done := ExecuteLandValidation(order, worldPresent, biomeOf, pick, statusAt);
      assert SweepFates(p1, provinces, order, done, worldPresent, biomeOf, pick, statusAt);
      FatesFromStart(old(provinces), p1, provinces, order, done, worldPresent, biomeOf, pick, statusAt);
      if ok && worldPresent && !old(AnyValidationsPending()) && !ClearSeen(statusAt, |order|) {
        AllValidated(old(provinces), p1, provinces, order, worldPresent, biomeOf, pick, statusAt);
      }
    }

    /** Looks for a pending request by scanning the provinces in `order`. */
    method AnyValidationsPendingScan(order: seq<ProvinceId>) returns (r: bool)
      requires Lists(order, provinces)
      ensures r == AnyValidationsPending()
    {
      var k := 0;
      while k < |order|
        invariant 0 <= k <= |order|
        invariant forall j :: 0 <= j < k ==> !provinces[order[j]].landValidationRequested
      {
        if provinces[order[k]].landValidationRequested {
          return true;
        }
        k := k + 1;
      }
      return false;
    }
  }
}
