/** Consensus on messages: every message an oracle reports also counts as a vote for its stub, and of
    a message and its stub the message wins. */
module ExecMessageConsensus {
  import opened CcipTypes
  import opened Sorting
  import opened Consensus
  import opened ExecTypes

  // ---------- the votes ----------

  /** One reported message is a vote for m: m is its stub, or m is the message and not pseudo-deleted. */
  ghost predicate VoteFor(x: Message, m: Message) {
    m == Stub(x) || (m == x && !x.IsPseudoDeleted())
  }

  ghost predicate CastsFor(msgs: map<SeqNum, Message>, m: Message) {
    exists s :: s in msgs && VoteFor(msgs[s], m)
  }

  /** The votes of one oracle for a chain. */
  ghost function CastBy(msgs: map<SeqNum, Message>, o: OracleId): set<(Message, OracleId)> {
    (set s | s in msgs :: (Stub(msgs[s]), o)) + (set s | s in msgs && !msgs[s].IsPseudoDeleted() :: (msgs[s], o))
  }

  /** All votes for chain c. */
  ghost function Cast(aos: seq<AttributedObservation>, c: ChainSelector): set<(Message, OracleId)> {
    if aos == [] then {}
    else Cast(aos[..|aos| - 1], c) + CastBy(On(aos[|aos| - 1].obs.messages, c), aos[|aos| - 1].oracle)
  }

  /** The oracles with a vote for m on chain c. */
  ghost function Voters(aos: seq<AttributedObservation>, c: ChainSelector, m: Message): set<OracleId> {
    set i | 0 <= i < |aos| && CastsFor(On(aos[i].obs.messages, c), m) :: aos[i].oracle
  }

  lemma CastByExact(msgs: map<SeqNum, Message>, o: OracleId, m: Message, p: OracleId)
    ensures (m, p) in CastBy(msgs, o) <==> p == o && CastsFor(msgs, m)
  {
    if CastsFor(msgs, m) {
      var s :| s in msgs && VoteFor(msgs[s], m);
      assert (m, o) in CastBy(msgs, o);
    }
  }

  lemma {:induction false} CastExact(aos: seq<AttributedObservation>, c: ChainSelector, m: Message, o: OracleId)
    ensures (m, o) in Cast(aos, c) <==> o in Voters(aos, c, m)
  {
    if aos != [] {
      var front, last := aos[..|aos| - 1], aos[|aos| - 1];
      CastExact(front, c, m, o);
      CastByExact(On(last.obs.messages, c), last.oracle, m, o);
      VotersOfFront(aos, c, m);
    }
  }

  lemma VotersOfFront(aos: seq<AttributedObservation>, c: ChainSelector, m: Message)
    requires aos != []
    ensures Voters(aos, c, m) ==
            Voters(aos[..|aos| - 1], c, m)
            + if CastsFor(On(aos[|aos| - 1].obs.messages, c), m) then {aos[|aos| - 1].oracle} else {}
  {
    var front, last := aos[..|aos| - 1], aos[|aos| - 1];
    forall o | o in Voters(aos, c, m)
      ensures o in Voters(front, c, m) + if CastsFor(On(last.obs.messages, c), m) then {last.oracle} else {}
    {
      var i :| 0 <= i < |aos| && CastsFor(On(aos[i].obs.messages, c), m) && aos[i].oracle == o;
      if i < |front| {
        assert front[i] == aos[i];
      }
    }
    forall o | o in Voters(front, c, m)
      ensures o in Voters(aos, c, m)
    {
      var i :| 0 <= i < |front| && CastsFor(On(front[i].obs.messages, c), m) && front[i].oracle == o;
      assert aos[i] == front[i];
    }
  }

  /** At least f + 1 oracles voted for m. */
  ghost predicate Wins(aos: seq<AttributedObservation>, c: ChainSelector, f: nat, m: Message) {
    |Voters(aos, c, m)| >= f + 1
  }

  lemma WinsIsOracleWinner(aos: seq<AttributedObservation>, c: ChainSelector, f: nat, m: Message)
    ensures OracleWinner(Cast(aos, c), f + 1, m) <==> Wins(aos, c, f, m)
  {
    forall o
      ensures o in VotersIn(Cast(aos, c), m) <==> o in Voters(aos, c, m)
    {
      CastExact(aos, c, m, o);
      if o in VotersIn(Cast(aos, c), m) {
        assert (m, o) in Cast(aos, c);
      }
    }
    assert VotersIn(Cast(aos, c), m) == Voters(aos, c, m);
  }

  // ---------- which message is chosen ----------

  /** m is chosen among the winners of one number: the only one, or the message beside a pseudo-deleted one. */
  ghost predicate Picked(ws: set<Message>, m: Message) {
    || ws == {m}
    || (!m.IsPseudoDeleted() && exists w :: w != m && w.IsPseudoDeleted() && ws == {m, w})
  }

  lemma PickedUnique(ws: set<Message>, m: Message, n: Message)
    requires Picked(ws, m) && Picked(ws, n)
    ensures m == n
  {
    assert m in ws && n in ws;
  }

  /** The switch over the number of winners. */
  method PickMessage(msgs: seq<Message>) returns (r: Option<Message>)
    requires NoDuplicates(msgs)
    ensures r.Some? ==> Picked(SetOf(msgs), r.value)
    ensures r.None? ==> forall m :: !Picked(SetOf(msgs), m)
  {
    ghost var ws := SetOf(msgs);
    r := None;
    if |msgs| == 1 {
      assert ws == {msgs[0]};
      r := Some(msgs[0]);
    } else if |msgs| == 2 {
      assert ws == {msgs[0], msgs[1]} == {msgs[1], msgs[0]};
      if msgs[0].IsPseudoDeleted() && !msgs[1].IsPseudoDeleted() {
        r := Some(msgs[1]);
      } else if msgs[1].IsPseudoDeleted() && !msgs[0].IsPseudoDeleted() {
        r := Some(msgs[0]);
      } else {
        NotTwoOfAKind(ws, msgs[0], msgs[1]);
      }
    } else if |msgs| == 0 {
      assert ws == {};
    } else {
      TooMany(ws, msgs);
    }
  }

  lemma NotTwoOfAKind(ws: set<Message>, a: Message, b: Message)
    requires ws == {a, b} && a != b && (a.IsPseudoDeleted() <==> b.IsPseudoDeleted())
    ensures forall m :: !Picked(ws, m)
  {
    forall m
      ensures !Picked(ws, m)
    {
      assert a in ws && b in ws;
    }
  }

  lemma TooMany(ws: set<Message>, msgs: seq<Message>)
    requires ws == SetOf(msgs) && NoDuplicates(msgs) && |msgs| > 2
    ensures forall m :: !Picked(ws, m)
  {
    assert msgs[0] in ws && msgs[1] in ws && msgs[2] in ws;
    assert msgs[0] != msgs[1] && msgs[1] != msgs[2] && msgs[0] != msgs[2];
  }

  /** The winners of number s among a list of winners. */
  ghost function At(ws: seq<Message>, s: SeqNum): set<Message> {
    set m | m in ws && m.seqNum == s
  }

  /** The same as a list. */
  function Listing(ws: seq<Message>, s: SeqNum): seq<Message> {
    if ws == [] then []
    else Listing(ws[..|ws| - 1], s) + if ws[|ws| - 1].seqNum == s then [ws[|ws| - 1]] else []
  }

  lemma {:induction false} ListingExact(ws: seq<Message>, s: SeqNum)
    requires NoDuplicates(ws)
    ensures NoDuplicates(Listing(ws, s)) && SetOf(Listing(ws, s)) == At(ws, s)
  {
    if ws != [] {
      var front, last := ws[..|ws| - 1], ws[|ws| - 1];
      ListingExact(front, s);
      var l := Listing(front, s);
      assert At(ws, s) == At(front, s) + if last.seqNum == s then {last} else {};
      assert last !in SetOf(l);
      assert SetOf(l + [last]) == SetOf(l) + {last};
      assert NoDuplicates(l + [last]);
    }
  }

  /** Winners by number, in the order in which they come. */
  method GroupByNumber(ws: seq<Message>) returns (g: map<SeqNum, seq<Message>>)
    ensures forall s :: s in g <==> Listing(ws, s) != []
    ensures forall s :: s in g ==> g[s] == Listing(ws, s)
  {
    g := map[];
    for i := 0 to |ws|
      invariant forall s :: s in g <==> Listing(ws[..i], s) != []
      invariant forall s :: s in g ==> g[s] == Listing(ws[..i], s)
    {
      assert ws[..i + 1][..i] == ws[..i];
      var s := ws[i].seqNum;
      g := g[s := (if s in g then g[s] else []) + [ws[i]]];
    }
    assert ws[..|ws|] == ws;
  }

  /** r holds exactly the picks of the winners. */
  ghost predicate IsPicks(ws: seq<Message>, r: map<SeqNum, Message>) {
    && (forall s :: s in r ==> Picked(At(ws, s), r[s]))
    && forall s, m :: Picked(At(ws, s), m) ==> s in r
  }

  method PickMessages(ws: seq<Message>) returns (r: map<SeqNum, Message>)
    requires NoDuplicates(ws)
    ensures IsPicks(ws, r)
  {
    var g := GroupByNumber(ws);
    r := map[];
    var rest := g.Keys;
    while rest != {}
      invariant rest <= g.Keys
      invariant forall s :: s in r ==> s in g && s !in rest && Picked(At(ws, s), r[s])
      invariant forall s, m :: s in g && s !in rest && Picked(At(ws, s), m) ==> s in r
    {
      var s :| s in rest;
      rest := rest - {s};
      ListingExact(ws, s);
      var pick := PickMessage(g[s]);
      if pick.Some? {
        r := r[s := pick.value];
      }
    }
    forall s, m | Picked(At(ws, s), m)
      ensures s in r
    {
      assert m in At(ws, s);
      ListingExact(ws, s);
      assert m in SetOf(Listing(ws, s));
    }
  }

  // ---------- counting ----------

  lemma CastByStep(msgs: map<SeqNum, Message>, rest: set<SeqNum>, s: SeqNum, o: OracleId)
    requires s in rest && rest <= msgs.Keys
    ensures CastBy(msgs - (rest - {s}), o) ==
            CastBy(msgs - rest, o) + {(Stub(msgs[s]), o)} + if msgs[s].IsPseudoDeleted() then {} else {(msgs[s], o)}
  {
    var a, b := msgs - (rest - {s}), msgs - rest;
    assert a.Keys == b.Keys + {s};
  }

  /** A vote for the stub of each message, and one for the message unless it is pseudo-deleted. */
  method AddMessages(validator: OracleMinObservation<Message>, msgs: map<SeqNum, Message>, oracle: OracleId)
    requires validator.Valid()
    modifies validator
    ensures validator.Valid() && validator.seen == old(validator.seen) + CastBy(msgs, oracle)
  {
    var rest := msgs.Keys;
    assert msgs - rest == map[];
    while rest != {}
      invariant rest <= msgs.Keys && validator.Valid()
      invariant validator.seen == old(validator.seen) + CastBy(msgs - rest, oracle)
    {
      var s :| s in rest;
      CastByStep(msgs, rest, s, oracle);
      rest := rest - {s};
      validator.Add(Stub(msgs[s]), oracle);
      if !msgs[s].IsPseudoDeleted() {
        validator.Add(msgs[s], oracle);
      }
    }
    assert msgs - {} == msgs;
  }

  /** The counters of different chains are different objects. */
  ghost predicate Separate(validators: map<ChainSelector, OracleMinObservation<Message>>) {
    forall c, d :: c in validators && d in validators && c != d ==> validators[c] != validators[d]
  }

  /** Every chain's counter has seen the votes for that chain. */
  ghost predicate HaveSeen(validators: map<ChainSelector, OracleMinObservation<Message>>,
                           aos: seq<AttributedObservation>, fChain: map<ChainSelector, nat>)
    requires validators.Keys == fChain.Keys
    reads validators.Values
  {
    forall c :: c in validators ==>
      validators[c].Valid() && validators[c].seen == Cast(aos, c) && validators[c].threshold == fChain[c] + 1
  }

  ghost predicate AllValid(validators: map<ChainSelector, OracleMinObservation<Message>>)
    reads validators.Values
  {
    forall c :: c in validators ==> validators[c].Valid()
  }

  /** The votes of one oracle, for the chains that have a counter. */
  method AddObservation(validators: map<ChainSelector, OracleMinObservation<Message>>, ao: AttributedObservation)
    requires Separate(validators) && AllValid(validators)
    modifies validators.Values
    ensures AllValid(validators)
    ensures forall c :: c in validators ==>
              validators[c].seen == old(validators[c].seen) + CastBy(On(ao.obs.messages, c), ao.oracle)
  {
    var rest := ao.obs.messages.Keys;
    assert CastBy(map[], ao.oracle) == {};
    while rest != {}
      invariant rest <= ao.obs.messages.Keys && AllValid(validators)
      invariant forall c :: c in validators && c in rest ==> validators[c].seen == old(validators[c].seen)
      invariant forall c :: c in validators && c !in rest ==>
                  validators[c].seen == old(validators[c].seen) + CastBy(On(ao.obs.messages, c), ao.oracle)
    {
      var c :| c in rest;
      rest := rest - {c};
      if c in validators {
        AddMessages(validators[c], ao.obs.messages[c], ao.oracle);
      }
    }
  }

  /** A counter with threshold f + 1 for every chain whose f is known. */
  method NewValidators(fChain: map<ChainSelector, nat>)
    returns (validators: map<ChainSelector, OracleMinObservation<Message>>)
    ensures validators.Keys == fChain.Keys && Separate(validators) && AllValid(validators)
    ensures forall c :: c in validators ==>
              fresh(validators[c]) && validators[c].seen == {} && validators[c].threshold == fChain[c] + 1
  {
    validators := map[];
    var rest := fChain.Keys;
    while rest != {}
      invariant rest <= fChain.Keys && validators.Keys == fChain.Keys - rest && Separate(validators)
      invariant AllValid(validators)
      invariant forall c :: c in validators ==>
                  fresh(validators[c]) && validators[c].seen == {} && validators[c].threshold == fChain[c] + 1
    {
      var c :| c in rest;
      rest := rest - {c};
      var validator := new OracleMinObservation<Message>(FPlus1(fChain[c]));
      validators := validators[c := validator];
    }
  }

  method PrepareValidators(aos: seq<AttributedObservation>, fChain: map<ChainSelector, nat>)
    returns (validators: map<ChainSelector, OracleMinObservation<Message>>)
    ensures validators.Keys == fChain.Keys && HaveSeen(validators, aos, fChain)
    ensures forall c :: c in validators ==> fresh(validators[c])
  {
    validators := NewValidators(fChain);
    for i := 0 to |aos|
      invariant Separate(validators) && AllValid(validators)
      invariant forall c :: c in validators ==> fresh(validators[c]) && validators[c].seen == Cast(aos[..i], c)
    {
      assert aos[..i + 1][..i] == aos[..i];
      AddObservation(validators, aos[i]);
    }
    assert aos[..|aos|] == aos;
  }

  // ---------- the consensus ----------

  /** ws are the winners under number s. */
  ghost predicate AreWinners(aos: seq<AttributedObservation>, c: ChainSelector, f: nat, s: SeqNum, ws: set<Message>) {
    forall m :: m in ws <==> Wins(aos, c, f, m) && m.seqNum == s
  }

  /** m is picked among the winners of chain c under number s. */
  ghost predicate Chosen(aos: seq<AttributedObservation>, f: nat, c: ChainSelector, s: SeqNum, m: Message) {
    exists ws :: AreWinners(aos, c, f, s, ws) && Picked(ws, m)
  }

  /** r holds the chosen messages of one chain. */
  ghost predicate IsChainConsensus(aos: seq<AttributedObservation>, f: nat, c: ChainSelector, r: map<SeqNum, Message>) {
    && (forall s :: s in r ==> Chosen(aos, f, c, s, r[s]))
    && forall s, m :: Chosen(aos, f, c, s, m) ==> s in r && r[s] == m
  }

  /** r holds the chosen messages of every chain with a known f, and no chain without any. */
  ghost predicate IsMessageConsensus(aos: seq<AttributedObservation>, fChain: map<ChainSelector, nat>,
                                     r: MessageObservations) {
    && (forall c :: c in r ==> c in fChain && r[c] != map[] && IsChainConsensus(aos, fChain[c], c, r[c]))
    && forall c :: c in fChain && c !in r ==> IsChainConsensus(aos, fChain[c], c, map[])
  }

  lemma ChainConsensus(aos: seq<AttributedObservation>, f: nat, c: ChainSelector, ws: seq<Message>,
                       r: map<SeqNum, Message>)
    requires forall m :: m in ws <==> Wins(aos, c, f, m)
    requires IsPicks(ws, r)
    ensures IsChainConsensus(aos, f, c, r)
  {
    assert forall s :: AreWinners(aos, c, f, s, At(ws, s));
    forall s, m | Chosen(aos, f, c, s, m)
      ensures s in r && r[s] == m
    {
      var w :| AreWinners(aos, c, f, s, w) && Picked(w, m);
      assert w == At(ws, s);
      PickedUnique(w, m, r[s]);
    }
  }

  /** What one chain's counter gives. */
  method ChainMessages(validator: OracleMinObservation<Message>, ghost aos: seq<AttributedObservation>,
                       ghost c: ChainSelector, ghost f: nat)
    returns (r: map<SeqNum, Message>)
    requires validator.Valid() && validator.seen == Cast(aos, c) && validator.threshold == f + 1
    ensures IsChainConsensus(aos, f, c, r)
  {
    var ws := validator.GetValid();
    r := PickMessages(ws);
    forall m
      ensures m in ws <==> Wins(aos, c, f, m)
    {
      WinsIsOracleWinner(aos, c, f, m);
    }
    ChainConsensus(aos, f, c, ws, r);
  }

  method ComputeMessageObservationsConsensus(aos: seq<AttributedObservation>, fChain: map<ChainSelector, nat>)
    returns (results: MessageObservations)
    ensures IsMessageConsensus(aos, fChain, results)
  {
    var validators := PrepareValidators(aos, fChain);
    results := map[];
    var rest := validators.Keys;
    while rest != {}
      invariant rest <= validators.Keys && HaveSeen(validators, aos, fChain)
      invariant forall c :: c in results ==>
                  c in fChain && c !in rest && results[c] != map[] && IsChainConsensus(aos, fChain[c], c, results[c])
      invariant forall c :: c in fChain && c !in rest && c !in results ==> IsChainConsensus(aos, fChain[c], c, map[])
    {
      var c :| c in rest;
      rest := rest - {c};
      var msgs := ChainMessages(validators[c], aos, c, fChain[c]);
      if msgs != map[] {
        results := results[c := msgs];
      }
    }
  }

  /** The votes determine the result, whatever order counters, winners and numbers are walked in. */
  lemma MessageConsensusUnique(aos: seq<AttributedObservation>, fChain: map<ChainSelector, nat>,
                               a: MessageObservations, b: MessageObservations)
    requires IsMessageConsensus(aos, fChain, a) && IsMessageConsensus(aos, fChain, b)
    ensures a == b
  {
    forall c | c in a || c in b
      ensures c in a && c in b && a[c] == b[c]
    {
      SameChain(aos, fChain, a, b, c);
    }
  }

  lemma ChainConsensusUnique(aos: seq<AttributedObservation>, f: nat, c: ChainSelector, x: map<SeqNum, Message>,
                             y: map<SeqNum, Message>)
    requires IsChainConsensus(aos, f, c, x) && IsChainConsensus(aos, f, c, y)
    ensures x == y
  {
    forall s | s in x || s in y
      ensures s in x && s in y && x[s] == y[s]
    {
      assert s in x ==> Chosen(aos, f, c, s, x[s]);
      assert s in y ==> Chosen(aos, f, c, s, y[s]);
    }
  }

  /** The chosen messages of chain c, none if it is absent. */
  lemma OfChain(aos: seq<AttributedObservation>, fChain: map<ChainSelector, nat>, r: MessageObservations,
                c: ChainSelector)
    requires IsMessageConsensus(aos, fChain, r) && c in fChain
    ensures IsChainConsensus(aos, fChain[c], c, if c in r then r[c] else map[])
  {
  }

  lemma SameChain(aos: seq<AttributedObservation>, fChain: map<ChainSelector, nat>, a: MessageObservations,
                  b: MessageObservations, c: ChainSelector)
    requires IsMessageConsensus(aos, fChain, a) && IsMessageConsensus(aos, fChain, b) && (c in a || c in b)
    ensures c in a && c in b && a[c] == b[c]
  {
    OfChain(aos, fChain, a, c);
    OfChain(aos, fChain, b, c);
    ChainConsensusUnique(aos, fChain[c], c, if c in a then a[c] else map[], if c in b then b[c] else map[]);
  }

  // ---------- what the choice means ----------

  /** Whoever votes for a message votes for its stub. */
  lemma StubHasMoreVoters(aos: seq<AttributedObservation>, c: ChainSelector, m: Message)
    ensures Voters(aos, c, m) <= Voters(aos, c, Stub(m))
    ensures |Voters(aos, c, m)| <= |Voters(aos, c, Stub(m))|
  {
    forall i | 0 <= i < |aos| && CastsFor(On(aos[i].obs.messages, c), m)
      ensures CastsFor(On(aos[i].obs.messages, c), Stub(m))
    {
      var msgs := On(aos[i].obs.messages, c);
      var s :| s in msgs && VoteFor(msgs[s], m);
      assert VoteFor(msgs[s], Stub(m));
    }
    SubsetSize(Voters(aos, c, m), Voters(aos, c, Stub(m)));
  }

  /** Only stubs and messages that are not pseudo-deleted get votes. */
  lemma VotedFor(aos: seq<AttributedObservation>, c: ChainSelector, m: Message)
    requires Voters(aos, c, m) != {}
    ensures m.IsPseudoDeleted() ==> m == Stub(m)
  {
    var o :| o in Voters(aos, c, m);
    var i :| 0 <= i < |aos| && CastsFor(On(aos[i].obs.messages, c), m) && aos[i].oracle == o;
    var s :| s in On(aos[i].obs.messages, c) && VoteFor(On(aos[i].obs.messages, c)[s], m);
  }

  /** m wins under number s, and so does nothing but m and its stub. */
  ghost predicate WinsWithStub(aos: seq<AttributedObservation>, f: nat, c: ChainSelector, s: SeqNum, m: Message) {
    && m.seqNum == s && Wins(aos, c, f, m)
    && forall w :: Wins(aos, c, f, w) && w.seqNum == s ==> w == m || w == Stub(m)
  }

  lemma WinnersWithStub(aos: seq<AttributedObservation>, f: nat, c: ChainSelector, s: SeqNum, m: Message)
    requires WinsWithStub(aos, f, c, s, m)
    ensures AreWinners(aos, c, f, s, {m, Stub(m)})
    ensures m.IsPseudoDeleted() ==> {m, Stub(m)} == {m}
  {
    StubHasMoreVoters(aos, c, m);
    if m.IsPseudoDeleted() {
      VotedFor(aos, c, m);
    }
  }

  /** The switch over the winners amounts to this: a stub is chosen exactly when it is the only
      winner under its number, and a message exactly when the winners are it and its stub; no other
      set of winners gives anything. */
  lemma ChosenExactly(aos: seq<AttributedObservation>, f: nat, c: ChainSelector, s: SeqNum, m: Message)
    ensures Chosen(aos, f, c, s, m) <==> WinsWithStub(aos, f, c, s, m)
    ensures Chosen(aos, f, c, s, m) ==> AreWinners(aos, c, f, s, {m, Stub(m)})
    ensures Chosen(aos, f, c, s, m) && m.IsPseudoDeleted() ==> m == Stub(m)
  {
    if Chosen(aos, f, c, s, m) {
      ChosenIsAlone(aos, f, c, s, m);
    }
    if WinsWithStub(aos, f, c, s, m) {
      WinnersWithStub(aos, f, c, s, m);
      assert Picked({m, Stub(m)}, m);
      if m.IsPseudoDeleted() {
        VotedFor(aos, c, m);
      }
    }
  }

  lemma ChosenIsAlone(aos: seq<AttributedObservation>, f: nat, c: ChainSelector, s: SeqNum, m: Message)
    requires Chosen(aos, f, c, s, m)
    ensures WinsWithStub(aos, f, c, s, m)
  {
    var ws :| AreWinners(aos, c, f, s, ws) && Picked(ws, m);
    assert m in ws;
    StubHasMoreVoters(aos, c, m);
    assert Stub(m) in ws;
    forall w | Wins(aos, c, f, w) && w.seqNum == s
      ensures w == m || w == Stub(m)
    {
      assert w in ws;
    }
  }
}
