/**
 * The bookkeeping of the tracking-efficiency plot (trackeff/main.go): the
 * number of sub-plots and the cut values each one uses, taken from three
 * repeatable flags, and the choice of the true particle behind a
 * reconstructed track by majority of hits.
 *
 * Event entries are a map from entry id to entry; `GetEntry(id).(*T)` with
 * `ok` true is `id in entries && entries[id].T?`. Ids and hit counts, Go
 * `uint64`s, are natural numbers here.
 */
module TrackEff {

  /** `intMin`: the smaller argument. */
  function IntMin(a: int, b: int): (m: int)
    ensures m <= a && m <= b
    ensures m == a || m == b
  {
    if a < b then a else b
  }

  /** `intMax`: the larger argument. */
  function IntMax(a: int, b: int): (m: int)
    ensures m >= a && m >= b
    ensures m == a || m == b
  {
    if a > b then a else b
  }

  // ---------------------------------------------------------------------------
  // Sub-plots

  /** The cuts one sub-plot applies: pT window and maximal fractional difference. */
  datatype Cuts = Cuts(pTMin: real, pTMax: real, fracCut: real)

  /** `nSubs`: one sub-plot per value of the longest cut flag, and at least one. */
  method SubCount(pTMin: seq<real>, pTMax: seq<real>, fracCut: seq<real>) returns (nSubs: int)
    ensures nSubs >= 1 && nSubs >= |pTMin| && nSubs >= |pTMax| && nSubs >= |fracCut|
    ensures nSubs == 1 || nSubs == |pTMin| || nSubs == |pTMax| || nSubs == |fracCut|
  {
    nSubs := 1;
    nSubs := IntMax(nSubs, |pTMin|);
    nSubs := IntMax(nSubs, |pTMax|);
    nSubs := IntMax(nSubs, |fracCut|);
  }

  /** The index sub-plot j reads from a flag of `len` values: j itself while
      the flag has that many values, its last value after that. */
  lemma {:induction false} ClampedIndex(j: int, len: int)
    requires 0 <= j && len >= 1
    ensures 0 <= IntMin(j, len - 1) < len
    ensures j < len ==> IntMin(j, len - 1) == j
    ensures j >= len ==> IntMin(j, len - 1) == len - 1
  {
  }

  /** The cuts of each sub-plot, in order (the `j` loop of `main`). The flags
      are never empty: they start from one default value each, which the
      flag model keeps non-empty. */
  method SubCuts(pTMin: seq<real>, pTMax: seq<real>, fracCut: seq<real>) returns (cuts: seq<Cuts>)
    requires |pTMin| >= 1 && |pTMax| >= 1 && |fracCut| >= 1
    ensures |cuts| >= |pTMin| && |cuts| >= |pTMax| && |cuts| >= |fracCut|
    ensures |cuts| == |pTMin| || |cuts| == |pTMax| || |cuts| == |fracCut| || |cuts| == 1
    ensures forall j :: 0 <= j < |cuts| ==>
      && cuts[j].pTMin == pTMin[if j < |pTMin| then j else |pTMin| - 1]
      && cuts[j].pTMax == pTMax[if j < |pTMax| then j else |pTMax| - 1]
      && cuts[j].fracCut == fracCut[if j < |fracCut| then j else |fracCut| - 1]
  {
    var nSubs := SubCount(pTMin, pTMax, fracCut);
    cuts := [];
    for j := 0 to nSubs
      invariant |cuts| == j
      invariant forall k :: 0 <= k < j ==>
        && cuts[k].pTMin == pTMin[if k < |pTMin| then k else |pTMin| - 1]
        && cuts[k].pTMax == pTMax[if k < |pTMax| then k else |pTMax| - 1]
        && cuts[k].fracCut == fracCut[if k < |fracCut| then k else |fracCut| - 1]
    {
      ClampedIndex(j, |pTMin|);
      ClampedIndex(j, |pTMax|);
      ClampedIndex(j, |fracCut|);
      var iPTMin := IntMin(j, |pTMin| - 1);
      var iPTMax := IntMin(j, |pTMax| - 1);
      var iFracCut := IntMin(j, |fracCut| - 1);
      cuts := cuts + [Cuts(pTMin[iPTMin], pTMax[iPTMax], fracCut[iFracCut])];
    }
  }

  // ---------------------------------------------------------------------------
  // Truth matching

  /** The entries of an event that the matching looks at; the fields it does
      not read are left out. */
  datatype Entry =
    | EnergyDep(source: seq<nat>)
    | SimHit(particle: nat)
    | Particle
    | OtherEntry

  /** The particle ids one source of an energy deposit votes for: the
      particle of a simulated hit, or the source itself when it is a particle. */
  function Vote(entries: map<nat, Entry>, sourceID: nat): seq<nat> {
    if sourceID !in entries then []
    else
      match entries[sourceID]
      case SimHit(p) => [p]
      case Particle => [sourceID]
      case _ => []
  }

  /** The votes of a sequence of sources, in order. */
  function Votes(entries: map<nat, Entry>, sources: seq<nat>): seq<nat> {
    if sources == [] then []
    else Votes(entries, sources[..|sources| - 1]) + Vote(entries, sources[|sources| - 1])
  }

  /** The votes of all energy deposits a track observed, in order; an
      observation that is not an energy deposit is skipped. */
  function Candidates(entries: map<nat, Entry>, observation: seq<nat>): seq<nat> {
    if observation == [] then []
    else
      var obsID := observation[|observation| - 1];
      Candidates(entries, observation[..|observation| - 1])
        + (if obsID in entries && entries[obsID].EnergyDep? then Votes(entries, entries[obsID].source) else [])
  }

  /** `m[id]++` on a Go map: the id's count goes up by one, from 0 when absent. */
  function Bump(m: map<nat, nat>, id: nat): map<nat, nat> {
    m[id := (if id in m then m[id] else 0) + 1]
  }

  /** The counts `partCandID` ends with after `Bump`ing each of `ids` in turn. */
  function Tally(ids: seq<nat>): map<nat, nat> {
    if ids == [] then map[] else Bump(Tally(ids[..|ids| - 1]), ids[|ids| - 1])
  }

  /** `m` counts the occurrences of every id in `ids`, and holds no other key. */
  ghost predicate Counts(m: map<nat, nat>, ids: seq<nat>) {
    && (forall id :: id in m <==> id in ids)
    && (forall id | id in m :: m[id] == multiset(ids)[id])
  }

  lemma {:induction false} TallySnoc(ids: seq<nat>, id: nat)
    ensures Tally(ids + [id]) == Bump(Tally(ids), id)
  {
    assert (ids + [id])[..|ids|] == ids;
  }

  /** The tally holds exactly the ids met, each with its number of occurrences. */
  lemma {:induction false} TallyCounts(ids: seq<nat>)
    ensures Counts(Tally(ids), ids)
  {
    if ids != [] {
      var init, id := ids[..|ids| - 1], ids[|ids| - 1];
      assert init + [id] == ids;
      TallyCounts(init);
      TallySnoc(init, id);
      BumpCounts(Tally(init), init, id);
    }
  }

  lemma {:induction false} BumpCounts(m: map<nat, nat>, ids: seq<nat>, id: nat)
    requires Counts(m, ids)
    ensures Counts(Bump(m, id), ids + [id])
  {
    assert multiset(ids + [id]) == multiset(ids) + multiset{id};
    if id !in m {
      assert multiset(ids)[id] == 0;
    }
  }

  /** Tallying one source's votes is one `++` for a simulated hit or a
      particle, and nothing otherwise. */
  lemma {:induction false} TallyVote(done: seq<nat>, entries: map<nat, Entry>, sourceID: nat)
    ensures Tally(done + Vote(entries, sourceID)) ==
      if sourceID in entries && entries[sourceID].SimHit? then Bump(Tally(done), entries[sourceID].particle)
      else if sourceID in entries && entries[sourceID].Particle? then Bump(Tally(done), sourceID)
      else Tally(done)
  {
    var v := Vote(entries, sourceID);
    if v == [] {
      assert done + v == done;
    } else {
      TallySnoc(done, v[0]);
    }
  }

  lemma {:induction false} VotesSnoc(entries: map<nat, Entry>, sources: seq<nat>, s: nat)
    ensures Votes(entries, sources + [s]) == Votes(entries, sources) + Vote(entries, s)
  {
    assert (sources + [s])[..|sources|] == sources;
  }

  lemma {:induction false} CandidatesSnoc(entries: map<nat, Entry>, observation: seq<nat>, o: nat)
    ensures Candidates(entries, observation + [o]) == Candidates(entries, observation)
      + (if o in entries && entries[o].EnergyDep? then Votes(entries, entries[o].source) else [])
  {
    assert (observation + [o])[..|observation|] == observation;
  }

  /** The inner `partCandID` loop over the sources of one energy deposit:
      every simulated-hit source adds one to its particle's count and every
      particle source one to its own id; other sources add nothing. */
  method CountSources(entries: map<nat, Entry>, source: seq<nat>, partCandID: map<nat, nat>, ghost before: seq<nat>)
    returns (counted: map<nat, nat>)
    requires partCandID == Tally(before)
    ensures counted == Tally(before + Votes(entries, source))
  {
    counted := partCandID;
    assert before + Votes(entries, source[..0]) == before;
    for l := 0 to |source|
      invariant counted == Tally(before + Votes(entries, source[..l]))
    {
      var sourceID := source[l];
      assert source[..l + 1] == source[..l] + [sourceID];
      VotesSnoc(entries, source[..l], sourceID);
      assert before + Votes(entries, source[..l + 1]) == before + Votes(entries, source[..l]) + Vote(entries, sourceID);
      TallyVote(before + Votes(entries, source[..l]), entries, sourceID);
      if sourceID in entries && entries[sourceID].SimHit? {
        counted := Bump(counted, entries[sourceID].particle);
      }
      if sourceID in entries && entries[sourceID].Particle? {
        counted := Bump(counted, sourceID);
      }
    }
    assert source[..|source|] == source;
  }

  /** The `partCandID` loops: the counts of the votes of every energy deposit
      the track observed. */
  method CountCandidates(entries: map<nat, Entry>, observation: seq<nat>) returns (partCandID: map<nat, nat>)
    ensures partCandID == Tally(Candidates(entries, observation))
    ensures Counts(partCandID, Candidates(entries, observation))
  {
    partCandID := map[];
    for k := 0 to |observation|
      invariant partCandID == Tally(Candidates(entries, observation[..k]))
    {
      var obsID := observation[k];
      assert observation[..k + 1] == observation[..k] + [obsID];
      CandidatesSnoc(entries, observation[..k], obsID);
      if obsID in entries && entries[obsID].EnergyDep? {
        partCandID := CountSources(entries, entries[obsID].source, partCandID, Candidates(entries, observation[..k]));
      } else {
        assert Candidates(entries, observation[..k]) + [] == Candidates(entries, observation[..k]);
      }
    }
    assert observation[..|observation|] == observation;
    TallyCounts(Candidates(entries, observation));
  }

  /** The argmax loop over `partCandID`, visiting its keys in `order` (Go
      leaves map order unspecified): the id with the greatest count, the
      first such in `order` because only a strictly greater count replaces
      the current choice; 0 with count 0 when nothing was counted. */
  method BestCandidate(partCandID: map<nat, nat>, order: seq<nat>) returns (partID: nat, hitCount: nat)
    requires forall id :: id in partCandID <==> id in order
    ensures forall id | id in partCandID :: partCandID[id] <= hitCount
    ensures hitCount == 0 ==> partID == 0
    ensures hitCount > 0 ==> partID in partCandID && partCandID[partID] == hitCount
    ensures hitCount > 0 ==>
      exists k :: 0 <= k < |order| && order[k] == partID && forall l :: 0 <= l < k ==> partCandID[order[l]] < hitCount
  {
    partID, hitCount := 0, 0;
    ghost var at := 0;
    for k := 0 to |order|
      invariant forall l :: 0 <= l < k ==> partCandID[order[l]] <= hitCount
      invariant hitCount == 0 ==> partID == 0
      invariant hitCount > 0 ==> 0 <= at < k && order[at] == partID && partCandID[partID] == hitCount
      invariant hitCount > 0 ==> forall l :: 0 <= l < at ==> partCandID[order[l]] < hitCount
    {
      var id := order[k];
      var count := partCandID[id];
      if count > hitCount {
        partID, hitCount := id, count;
        at := k;
      }
    }
  }

  /** A track's truth particle: the id that the most sources of its energy
      deposits vote for, or 0 (count 0) when none votes. */
  method TruthParticle(entries: map<nat, Entry>, observation: seq<nat>, order: seq<nat>)
    returns (partID: nat, hitCount: nat)
    requires forall id :: id in order <==> id in Candidates(entries, observation)
    ensures var votes := multiset(Candidates(entries, observation));
      && (forall id :: votes[id] <= hitCount)
      && (votes == multiset{} <==> hitCount == 0)
      && (hitCount == 0 ==> partID == 0)
      && (hitCount > 0 ==> votes[partID] == hitCount)
  {
    var partCandID := CountCandidates(entries, observation);
    partID, hitCount := BestCandidate(partCandID, order);
    ghost var c := Candidates(entries, observation);
    forall id ensures multiset(c)[id] <= hitCount {
      if id in c {
        assert id in partCandID;
      }
    }
    if c != [] {
      assert c[0] in partCandID;
      assert multiset(c)[c[0]] >= 1;
    }
  }
}
