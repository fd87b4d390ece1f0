/** Counting the votes for committed roots and for executed numbers. */
module ExecCommitVotes {
  import opened CcipTypes
  import opened ExecTypes
  import opened ExecValidation

  /** What has to be equal in two reports for them to count together. */
  datatype RootData = RootData(
    source: ChainSelector,
    onRamp: Address,
    timestamp: int,
    blockNum: nat,
    merkleRoot: Bytes32,
    range: SeqNumRange)

  /** The chain is the one under which the report is observed. */
  function KeyOf(c: ChainSelector, d: CommitData): RootData {
    RootData(c, d.onRamp, d.timestamp, d.blockNum, d.merkleRoot, d.range)
  }

  type RootTable = map<RootData, nat>

  type ExecTable = map<RootData, map<SeqNum, nat>>

  // ---------- the votes ----------

  /** How many of the reports of chain c have data k; with a number, only those that list it as executed. */
  ghost function ListVotes(c: ChainSelector, reports: seq<CommitData>, k: RootData, s: Option<SeqNum>): nat {
    if reports == [] then 0
    else
      var last := reports[|reports| - 1];
      ListVotes(c, reports[..|reports| - 1], k, s)
      + if KeyOf(c, last) == k && (s.Some? ==> s.value in last.executed) then 1 else 0
  }

  ghost function ObservationVotes(observed: CommitObservations, k: RootData, s: Option<SeqNum>): nat {
    if k.source in observed then ListVotes(k.source, observed[k.source], k, s) else 0
  }

  /** The votes for root data k, or for s being executed in it. */
  ghost function VotesFor(aos: seq<AttributedObservation>, k: RootData, s: Option<SeqNum>): nat {
    if aos == [] then 0
    else VotesFor(aos[..|aos| - 1], k, s) + ObservationVotes(aos[|aos| - 1].obs.commitReports, k, s)
  }

  /** Both tables together. */
  datatype Tables = Tables(roots: RootTable, executed: ExecTable)

  function Tally(t: Tables, k: RootData, s: Option<SeqNum>): nat {
    match s
    case None => if k in t.roots then t.roots[k] else 0
    case Some(n) => if k in t.executed && n in t.executed[k] then t.executed[k][n] else 0
  }

  /** The tables have the same keys and no zeros. */
  ghost predicate Proper(t: Tables) {
    && t.roots.Keys == t.executed.Keys
    && (forall k :: k in t.roots ==> t.roots[k] > 0)
    && forall k, n :: k in t.executed && n in t.executed[k] ==> t.executed[k][n] > 0
  }

  // ---------- counting ----------

  /** t counts d once more than t0 does. */
  ghost predicate CountsReport(t0: Tables, c: ChainSelector, d: CommitData, t: Tables) {
    && Proper(t)
    && forall k, s: Option<SeqNum> ::
         Tally(t, k, s) == Tally(t0, k, s) + if KeyOf(c, d) == k && (s.Some? ==> s.value in d.executed) then 1 else 0
  }

  /** One more vote for every number in nums. */
  method AddNumbers(votes0: map<SeqNum, nat>, nums: set<SeqNum>) returns (votes: map<SeqNum, nat>)
    requires forall n :: n in votes0 ==> votes0[n] > 0
    ensures votes.Keys == votes0.Keys + nums
    ensures forall n :: n in votes ==> votes[n] == (if n in votes0 then votes0[n] else 0) + (if n in nums then 1 else 0)
  {
    votes := votes0;
    var rest := nums;
    while rest != {}
      invariant rest <= nums
      invariant votes.Keys == votes0.Keys + (nums - rest)
      invariant forall n :: n in votes ==>
                  votes[n] == (if n in votes0 then votes0[n] else 0) + (if n in nums && n !in rest then 1 else 0)
    {
      var n :| n in rest;
      rest := rest - {n};
      votes := votes[n := (if n in votes then votes[n] else 0) + 1];
    }
  }

  method AddReport(t0: Tables, c: ChainSelector, d: CommitData) returns (t: Tables)
    requires Proper(t0)
    ensures CountsReport(t0, c, d, t)
  {
    var k := KeyOf(c, d);
    var roots: RootTable := t0.roots[k := (if k in t0.roots then t0.roots[k] else 0) + 1];
    var before := if k in t0.executed then t0.executed[k] else map[];
    var unique: set<SeqNum> := set n | n in d.executed;
    var after := AddNumbers(before, unique);
    t := Tables(roots, t0.executed[k := after]);
    forall j, s: Option<SeqNum>
      ensures Tally(t, j, s) == Tally(t0, j, s) + if k == j && (s.Some? ==> s.value in d.executed) then 1 else 0
    {
      if j == k && s.Some? {
        assert s.value in unique <==> s.value in d.executed;
      }
    }
  }

  ghost predicate CountsList(t0: Tables, c: ChainSelector, reports: seq<CommitData>, t: Tables) {
    Proper(t) && forall k, s :: Tally(t, k, s) == Tally(t0, k, s) + ListVotes(c, reports, k, s)
  }

  lemma ListStep(c: ChainSelector, reports: seq<CommitData>, i: nat, k: RootData, s: Option<SeqNum>)
    requires i < |reports|
    ensures ListVotes(c, reports[..i + 1], k, s) ==
            ListVotes(c, reports[..i], k, s)
            + if KeyOf(c, reports[i]) == k && (s.Some? ==> s.value in reports[i].executed) then 1 else 0
  {
    assert reports[..i + 1][..i] == reports[..i];
  }

  lemma ListFurther(t0: Tables, c: ChainSelector, reports: seq<CommitData>, i: nat, before: Tables, t: Tables)
    requires i < |reports| && CountsList(t0, c, reports[..i], before) && CountsReport(before, c, reports[i], t)
    ensures CountsList(t0, c, reports[..i + 1], t)
  {
    forall k, s
      ensures Tally(t, k, s) == Tally(t0, k, s) + ListVotes(c, reports[..i + 1], k, s)
    {
      ListStep(c, reports, i, k, s);
    }
  }

  method AddChain(t0: Tables, c: ChainSelector, reports: seq<CommitData>) returns (t: Tables)
    requires Proper(t0)
    ensures CountsList(t0, c, reports, t)
  {
    t := t0;
    for i := 0 to |reports|
      invariant CountsList(t0, c, reports[..i], t)
    {
      ghost var before := t;
      t := AddReport(t, c, reports[i]);
      ListFurther(t0, c, reports, i, before, t);
    }
    assert reports[..|reports|] == reports;
  }

  ghost predicate CountsObservation(t0: Tables, observed: CommitObservations, t: Tables) {
    Proper(t) && forall k, s :: Tally(t, k, s) == Tally(t0, k, s) + ObservationVotes(observed, k, s)
  }

  lemma {:induction false} OtherChain(c: ChainSelector, reports: seq<CommitData>, k: RootData, s: Option<SeqNum>)
    requires k.source != c
    ensures ListVotes(c, reports, k, s) == 0
  {
    if reports != [] {
      OtherChain(c, reports[..|reports| - 1], k, s);
    }
  }

  lemma ObservationFurther(t0: Tables, observed: CommitObservations, rest: set<ChainSelector>, c: ChainSelector,
                           before: Tables, t: Tables)
    requires c in rest && rest <= observed.Keys
    requires CountsObservation(t0, observed - rest, before) && CountsList(before, c, observed[c], t)
    ensures CountsObservation(t0, observed - (rest - {c}), t)
  {
    forall k, s
      ensures Tally(t, k, s) == Tally(t0, k, s) + ObservationVotes(observed - (rest - {c}), k, s)
    {
      assert Tally(before, k, s) == Tally(t0, k, s) + ObservationVotes(observed - rest, k, s);
      if k.source != c {
        OtherChain(c, observed[c], k, s);
      }
    }
  }

  method AddObservation(t0: Tables, observed: CommitObservations) returns (t: Tables)
    requires Proper(t0)
    ensures CountsObservation(t0, observed, t)
  {
    t := t0;
    var rest := observed.Keys;
    while rest != {}
      invariant rest <= observed.Keys && CountsObservation(t0, observed - rest, t)
    {
      var c :| c in rest;
      ghost var before := t;
      t := AddChain(t, c, observed[c]);
      ObservationFurther(t0, observed, rest, c, before, t);
      rest := rest - {c};
    }
    assert observed - rest == observed;
  }

  /** The tables count exactly the votes. */
  ghost predicate AreTables(aos: seq<AttributedObservation>, t: Tables) {
    Proper(t) && forall k, s :: Tally(t, k, s) == VotesFor(aos, k, s)
  }

  method AggregateMerkleRootObservations(aos: seq<AttributedObservation>) returns (t: Tables)
    ensures AreTables(aos, t)
  {
    t := Tables(map[], map[]);
    for i := 0 to |aos|
      invariant AreTables(aos[..i], t)
    {
      assert aos[..i + 1][..i] == aos[..i];
      t := AddObservation(t, aos[i].obs.commitReports);
    }
    assert aos[..|aos|] == aos;
  }

  // ---------- votes are oracles ----------

  /** The observation has a report with data k, which lists s as executed if one is given. */
  ghost predicate Backs(observed: CommitObservations, k: RootData, s: Option<SeqNum>) {
    k.source in observed && ListBacks(observed[k.source], k, s)
  }

  ghost predicate ListBacks(reports: seq<CommitData>, k: RootData, s: Option<SeqNum>) {
    exists j :: 0 <= j < |reports| && KeyOf(k.source, reports[j]) == k && (s.Some? ==> s.value in reports[j].executed)
  }

  ghost function Backers(aos: seq<AttributedObservation>, k: RootData, s: Option<SeqNum>): set<OracleId> {
    set i | 0 <= i < |aos| && Backs(aos[i].obs.commitReports, k, s) :: aos[i].oracle
  }

  /** One observation per oracle, each accepted by the check of reports. */
  ghost predicate Accepted(aos: seq<AttributedObservation>) {
    && DistinctOracles(aos)
    && forall i :: 0 <= i < |aos| ==> ValidSequenceNumbers(aos[i].obs.commitReports)
  }

  lemma ListBacksOfFront(reports: seq<CommitData>, k: RootData, s: Option<SeqNum>)
    requires reports != []
    ensures ListBacks(reports, k, s) <==>
            || ListBacks(reports[..|reports| - 1], k, s)
            || (KeyOf(k.source, reports[|reports| - 1]) == k
                 && (s.Some? ==> s.value in reports[|reports| - 1].executed))
  {
    var front := reports[..|reports| - 1];
    forall j | 0 <= j < |front|
      ensures front[j] == reports[j]
    {
    }
    if ListBacks(front, k, s) {
      var j :| 0 <= j < |front| && KeyOf(k.source, front[j]) == k && (s.Some? ==> s.value in front[j].executed);
      assert KeyOf(k.source, reports[j]) == k;
    }
  }

  /** Reports with different roots give a root at most one vote. */
  lemma {:induction false} OneVotePerList(reports: seq<CommitData>, k: RootData, s: Option<SeqNum>)
    requires DisjointReports(reports)
    ensures ListVotes(k.source, reports, k, s) == if ListBacks(reports, k, s) then 1 else 0
  {
    if reports != [] {
      var front, last := reports[..|reports| - 1], reports[|reports| - 1];
      OneVotePerList(front, k, s);
      ListBacksOfFront(reports, k, s);
      if ListBacks(front, k, s) {
        var j :| 0 <= j < |front| && KeyOf(k.source, front[j]) == k && (s.Some? ==> s.value in front[j].executed);
        assert reports[j].merkleRoot != last.merkleRoot;
      }
    }
  }

  lemma OneVotePerObservation(observed: CommitObservations, k: RootData, s: Option<SeqNum>)
    requires ValidSequenceNumbers(observed)
    ensures ObservationVotes(observed, k, s) == if Backs(observed, k, s) then 1 else 0
  {
    if k.source in observed {
      OneVotePerList(observed[k.source], k, s);
    }
  }

  lemma BackersOfFront(aos: seq<AttributedObservation>, k: RootData, s: Option<SeqNum>)
    requires aos != []
    ensures Backers(aos, k, s) ==
            Backers(aos[..|aos| - 1], k, s)
            + if Backs(aos[|aos| - 1].obs.commitReports, k, s) then {aos[|aos| - 1].oracle} else {}
  {
    var front, last := aos[..|aos| - 1], aos[|aos| - 1];
    forall o | o in Backers(aos, k, s)
      ensures o in Backers(front, k, s) + if Backs(last.obs.commitReports, k, s) then {last.oracle} else {}
    {
      var i :| 0 <= i < |aos| && Backs(aos[i].obs.commitReports, k, s) && aos[i].oracle == o;
      if i < |front| {
        assert front[i] == aos[i];
      }
    }
    forall o | o in Backers(front, k, s)
      ensures o in Backers(aos, k, s)
    {
      var i :| 0 <= i < |front| && Backs(front[i].obs.commitReports, k, s) && front[i].oracle == o;
      assert aos[i] == front[i];
    }
  }

  lemma AcceptedFront(aos: seq<AttributedObservation>, k: RootData, s: Option<SeqNum>)
    requires Accepted(aos) && aos != []
    ensures Accepted(aos[..|aos| - 1]) && ValidSequenceNumbers(aos[|aos| - 1].obs.commitReports)
    ensures aos[|aos| - 1].oracle !in Backers(aos[..|aos| - 1], k, s)
  {
  }

  /** For accepted observations the counts are numbers of different oracles. */
  lemma {:induction false} VotesAreOracles(aos: seq<AttributedObservation>, k: RootData, s: Option<SeqNum>)
    requires Accepted(aos)
    ensures VotesFor(aos, k, s) == |Backers(aos, k, s)|
  {
    if aos != [] {
      var front, last := aos[..|aos| - 1], aos[|aos| - 1];
      AcceptedFront(aos, k, s);
      VotesAreOracles(front, k, s);
      OneVotePerObservation(last.obs.commitReports, k, s);
      BackersOfFront(aos, k, s);
    }
  }
}
