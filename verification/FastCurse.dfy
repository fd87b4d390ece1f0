/** The fast-curse planner: which subjects are cursed or uncursed on which chains. */
module FastCurse {
  import opened CcipTypes
  import opened Sorting

  // ---------- subjects ----------

  type Byte = x: int | 0 <= x < 256

  /** Sixteen bytes. */
  type Subject = s: seq<Byte> | |s| == 16 witness [0, 0, 0, 0, 0, 0, 0, 0, 0, 0, 0, 0, 0, 0, 0, 0]

  const GLOBAL_CURSE_SUBJECT: Subject := [1, 0, 0, 0, 0, 0, 0, 0, 0, 0, 0, 0, 0, 0, 0, 1]

  function Pow256(n: nat): nat {
    if n == 0 then 1 else 256 * Pow256(n - 1)
  }

  /** The n lowest bytes of x, the highest first. */
  function BigEndian(x: nat, n: nat): (b: seq<Byte>)
    ensures |b| == n
  {
    if n == 0 then [] else BigEndian(x / 256, n - 1) + [x % 256]
  }

  function FromBigEndian(b: seq<Byte>): nat {
    if b == [] then 0 else 256 * FromBigEndian(b[..|b| - 1]) + b[|b| - 1]
  }

  lemma {:induction false} BigEndianRoundTrip(x: nat, n: nat)
    requires x < Pow256(n)
    ensures FromBigEndian(BigEndian(x, n)) == x
  {
    if n > 0 {
      BigEndianRoundTrip(x / 256, n - 1);
      assert BigEndian(x, n)[..n - 1] == BigEndian(x / 256, n - 1);
    }
  }

  function GenericSelectorToSubject(selector: ChainSelector): Subject {
    [0, 0, 0, 0, 0, 0, 0, 0] + BigEndian(selector, 8)
  }

  function GenericSubjectToSelector(subject: Subject): nat {
    if subject == GLOBAL_CURSE_SUBJECT then 0 else FromBigEndian(subject[8..])
  }

  /** Decoding gives the selector back; no selector has the global subject, and no two the same. */
  lemma SubjectRoundTrip(selector: ChainSelector)
    ensures GenericSubjectToSelector(GenericSelectorToSubject(selector)) == selector
    ensures GenericSelectorToSubject(selector) != GLOBAL_CURSE_SUBJECT
  {
    var subject := GenericSelectorToSubject(selector);
    assert subject[0] == 0;
    assert subject[8..] == BigEndian(selector, 8);
    assert Pow256(8) == UINT64_MODULUS by {
      assert Pow256(4) == 256 * (256 * (256 * (256 * Pow256(0))));
      assert Pow256(8) == 256 * (256 * (256 * (256 * Pow256(4))));
    }
    BigEndianRoundTrip(selector, 8);
  }

  // ---------- configurations ----------

  type Version = nat

  datatype Action = Action(isGlobal: bool, chain: ChainSelector, subject: ChainSelector, version: Option<Version>)

  datatype Config = Config(actions: seq<Action>, force: bool)

  type Family = nat

  /** What registries, adapters and chains answer. */
  datatype Network = Network(
    family: ChainSelector -> Option<Family>,
    hasAdapter: (Family, Option<Version>) -> bool,
    initializes: (ChainSelector, Option<Version>) -> bool,
    curseEnabled: ChainSelector -> bool,
    isConnected: (ChainSelector, ChainSelector) -> bool,
    subjectOf: Family -> Option<ChainSelector -> Subject>,
    connectedChains: ChainSelector -> Option<seq<ChainSelector>>,
    deriveVersion: ChainSelector -> Option<Option<Version>>)

  /** A lane action from c against t. */
  ghost predicate IsLane(actions: seq<Action>, i: int, c: ChainSelector, t: ChainSelector) {
    0 <= i < |actions| && !actions[i].isGlobal && actions[i].chain == c && actions[i].subject == t
  }

  ghost predicate HasLane(actions: seq<Action>, c: ChainSelector, t: ChainSelector) {
    exists i :: IsLane(actions, i, c, t)
  }

  /** Every lane action has a version, and one in the opposite direction beside it. */
  ghost predicate Bidirectional(actions: seq<Action>) {
    && (forall i :: 0 <= i < |actions| && !actions[i].isGlobal ==> actions[i].version.Some?)
    && forall c, t :: HasLane(actions, c, t) ==> HasLane(actions, t, c)
  }

  type Lane = (ChainSelector, ChainSelector)

  /** The lane actions by lane, unless one lacks a version. */
  method CollectLanes(actions: seq<Action>) returns (lanes: Option<map<Lane, Version>>)
    ensures lanes.None? <==> exists i :: 0 <= i < |actions| && !actions[i].isGlobal && actions[i].version.None?
    ensures lanes.Some? ==>
              forall c: ChainSelector, t: ChainSelector :: (c, t) in lanes.value <==> HasLane(actions, c, t)
  {
    var all: map<Lane, Version> := map[];
    for i := 0 to |actions|
      invariant forall k :: 0 <= k < i && !actions[k].isGlobal ==> actions[k].version.Some?
      invariant forall c: ChainSelector, t: ChainSelector :: (c, t) in all <==> HasLane(actions[..i], c, t)
    {
      var action := actions[i];
      ghost var before := all;
      if !action.isGlobal {
        if action.version.None? {
          return None;
        }
        all := all[(action.chain, action.subject) := action.version.value];
      }
      forall c: ChainSelector, t: ChainSelector
        ensures (c, t) in all <==> HasLane(actions[..i + 1], c, t)
      {
        LaneStep(actions, i, c, t);
      }
    }
    assert actions[..|actions|] == actions;
    return Some(all);
  }

  lemma LaneStep(actions: seq<Action>, n: nat, c: ChainSelector, t: ChainSelector)
    requires n < |actions|
    ensures HasLane(actions[..n + 1], c, t) <==> HasLane(actions[..n], c, t) || IsLane(actions, n, c, t)
  {
    if HasLane(actions[..n + 1], c, t) {
      var i :| IsLane(actions[..n + 1], i, c, t);
      if i < n {
        assert IsLane(actions[..n], i, c, t);
      }
    }
    if HasLane(actions[..n], c, t) {
      var i :| IsLane(actions[..n], i, c, t);
      assert IsLane(actions[..n + 1], i, c, t);
    }
    if IsLane(actions, n, c, t) {
      assert IsLane(actions[..n + 1], n, c, t);
    }
  }

  /** Accepts exactly the configurations whose lanes are all cursed in both directions. */
  method ValidateBidirectionalLaneActions(actions: seq<Action>) returns (ok: bool)
    ensures ok <==> Bidirectional(actions)
  {
    var lanes := CollectLanes(actions);
    if lanes.None? {
      return false;
    }
    var unidirectional: seq<Lane> := [];
    var rest := lanes.value.Keys;
    while rest != {}
      invariant rest <= lanes.value.Keys
      invariant forall k :: 0 <= k < |unidirectional| ==>
                  HasLane(actions, unidirectional[k].0, unidirectional[k].1)
                    && !HasLane(actions, unidirectional[k].1, unidirectional[k].0)
      invariant unidirectional == [] ==>
                  forall c: ChainSelector, t: ChainSelector :: (c, t) in lanes.value && (c, t) !in rest ==>
                      (t, c) in lanes.value
    {
      var lane :| lane in rest;
      rest := rest - {lane};
      if (lane.1, lane.0) in lanes.value {
        continue;
      }
      assert HasLane(actions, lane.0, lane.1);
      unidirectional := unidirectional + [lane];
    }
    if |unidirectional| > 0 {
      assert HasLane(actions, unidirectional[0].0, unidirectional[0].1);
      return false;
    }
    return true;
  }

  // ---------- grouping ----------

  type Grouped = map<ChainSelector, seq<Subject>>

  /** Whether the action does anything: one against its own chain is skipped. */
  ghost predicate Acts(action: Action) {
    action.subject != action.chain
  }

  ghost predicate GlobalOn(actions: seq<Action>, c: ChainSelector) {
    exists i :: 0 <= i < |actions| && actions[i].chain == c && actions[i].isGlobal && actions[i].subject != c
  }

  ghost predicate ActsOn(actions: seq<Action>, c: ChainSelector) {
    exists i :: 0 <= i < |actions| && actions[i].chain == c && actions[i].subject != c
  }

  /** The subject that stands for chain t on chain c. */
  function SubjectFor(net: Network, c: ChainSelector, t: ChainSelector): Option<Subject> {
    var family := net.family(c);
    if family.None? then None
    else
      var encode := net.subjectOf(family.value);
      if encode.None? then None else Some(encode.value(t))
  }

  /** Subjects that, once cursed on chain c, stop its lane with t. */
  ghost predicate Covers(net: Network, subjects: set<Subject>, c: ChainSelector, t: ChainSelector) {
    GLOBAL_CURSE_SUBJECT in subjects || exists s :: SubjectFor(net, c, t) == Some(s) && s in subjects
  }

  ghost function SubjectsOf(g: Grouped, c: ChainSelector): set<Subject> {
    if c in g then SetOf(g[c]) else {}
  }

  /** Subject s is on the list of chain c for a lane action from c. */
  ghost predicate Wanted(net: Network, actions: seq<Action>, c: ChainSelector, s: Subject) {
    exists t :: t != c && HasLane(actions, c, t) && SubjectFor(net, c, t) == Some(s)
  }

  /** One chain's list: just the global subject if there is a global action, else the subjects of its
      lane actions, each once, of which none is left out unless the global subject is among them. */
  ghost predicate IsGroupOn(net: Network, actions: seq<Action>, c: ChainSelector, subjects: seq<Subject>) {
    && (GlobalOn(actions, c) ==> subjects == [GLOBAL_CURSE_SUBJECT])
    && NoDuplicates(subjects)
    && (!GlobalOn(actions, c) ==> forall k :: 0 <= k < |subjects| ==> Wanted(net, actions, c, subjects[k]))
    && forall t :: t != c && HasLane(actions, c, t) ==> Covers(net, SetOf(subjects), c, t)
  }

  ghost predicate IsGrouping(net: Network, actions: seq<Action>, g: Grouped) {
    && (forall c :: c in g <==> ActsOn(actions, c))
    && forall c :: c in g ==> IsGroupOn(net, actions, c, g[c])
  }

  lemma GlobalStep(actions: seq<Action>, n: nat, c: ChainSelector)
    requires n < |actions|
    ensures GlobalOn(actions[..n + 1], c) <==>
            GlobalOn(actions[..n], c) || (actions[n].chain == c && actions[n].isGlobal && Acts(actions[n]))
    ensures ActsOn(actions[..n + 1], c) <==> ActsOn(actions[..n], c) || (actions[n].chain == c && Acts(actions[n]))
  {
    var a, b := actions[..n + 1], actions[..n];
    assert forall i :: 0 <= i < n ==> a[i] == b[i];
    assert a[n] == actions[n];
    if GlobalOn(b, c) {
      var i :| 0 <= i < |b| && b[i].chain == c && b[i].isGlobal && Acts(b[i]);
      assert a[i].isGlobal;
    }
    if ActsOn(b, c) {
      var i :| 0 <= i < |b| && b[i].chain == c && Acts(b[i]);
      assert a[i].chain == c;
    }
  }

  lemma WantedStep(net: Network, actions: seq<Action>, n: nat, c: ChainSelector, s: Subject)
    requires n < |actions|
    ensures Wanted(net, actions[..n], c, s) ==> Wanted(net, actions[..n + 1], c, s)
  {
    if Wanted(net, actions[..n], c, s) {
      var t :| t != c && HasLane(actions[..n], c, t) && SubjectFor(net, c, t) == Some(s);
      LaneStep(actions, n, c, t);
    }
  }

  /** A list stays right when an action comes that adds nothing to what it has to cover. */
  lemma GroupStays(net: Network, actions: seq<Action>, n: nat, c: ChainSelector, subjects: seq<Subject>)
    requires n < |actions| && IsGroupOn(net, actions[..n], c, subjects)
    requires actions[n].chain == c && actions[n].isGlobal ==> !Acts(actions[n])
    requires forall t :: t != c && IsLane(actions, n, c, t) ==> Covers(net, SetOf(subjects), c, t)
    ensures IsGroupOn(net, actions[..n + 1], c, subjects)
  {
    GlobalStep(actions, n, c);
    forall k | 0 <= k < |subjects| && !GlobalOn(actions[..n], c)
      ensures Wanted(net, actions[..n + 1], c, subjects[k])
    {
      WantedStep(net, actions, n, c, subjects[k]);
    }
    forall t | t != c && HasLane(actions[..n + 1], c, t)
      ensures Covers(net, SetOf(subjects), c, t)
    {
      LaneStep(actions, n, c, t);
    }
  }

  /** A list that grows by the subject of a lane. */
  lemma GroupGrows(net: Network, actions: seq<Action>, n: nat, c: ChainSelector, subjects: seq<Subject>, s: Subject)
    requires n < |actions| && IsGroupOn(net, actions[..n], c, subjects)
    requires actions[n].chain == c && !actions[n].isGlobal && Acts(actions[n])
    requires SubjectFor(net, c, actions[n].subject) == Some(s)
    requires s !in subjects && GLOBAL_CURSE_SUBJECT !in subjects
    ensures IsGroupOn(net, actions[..n + 1], c, subjects + [s])
  {
    GlobalStep(actions, n, c);
    var t0 := actions[n].subject;
    LaneStep(actions, n, c, t0);
    assert IsLane(actions, n, c, t0);
    assert Wanted(net, actions[..n + 1], c, s);
    assert SetOf(subjects + [s]) == SetOf(subjects) + {s};
    forall k | 0 <= k < |subjects|
      ensures Wanted(net, actions[..n + 1], c, subjects[k])
    {
      assert !GlobalOn(actions[..n], c);
      WantedStep(net, actions, n, c, subjects[k]);
    }
    forall t | t != c && HasLane(actions[..n + 1], c, t)
      ensures Covers(net, SetOf(subjects + [s]), c, t)
    {
      LaneStep(actions, n, c, t);
      if HasLane(actions[..n], c, t) {
        assert Covers(net, SetOf(subjects), c, t);
      }
    }
  }

  lemma GroupGlobal(net: Network, actions: seq<Action>, n: nat, c: ChainSelector)
    requires n < |actions| && actions[n].chain == c && actions[n].isGlobal && Acts(actions[n])
    ensures IsGroupOn(net, actions[..n + 1], c, [GLOBAL_CURSE_SUBJECT])
  {
    GlobalStep(actions, n, c);
    assert GLOBAL_CURSE_SUBJECT in SetOf([GLOBAL_CURSE_SUBJECT]);
  }

  lemma GroupStart(net: Network, actions: seq<Action>, n: nat, c: ChainSelector)
    requires n <= |actions| && !ActsOn(actions[..n], c)
    ensures IsGroupOn(net, actions[..n], c, [])
  {
    forall t | t != c
      ensures !HasLane(actions[..n], c, t)
    {
    }
  }

  /** The other chains' lists are not affected. */
  lemma OthersStay(net: Network, actions: seq<Action>, n: nat, g: Grouped)
    requires n < |actions| && IsGrouping(net, actions[..n], g)
    ensures forall d :: d in g && d != actions[n].chain ==> IsGroupOn(net, actions[..n + 1], d, g[d])
  {
    forall d | d in g && d != actions[n].chain
      ensures IsGroupOn(net, actions[..n + 1], d, g[d])
    {
      GroupStays(net, actions, n, d, g[d]);
    }
  }

  /** Whether the action passes all checks, given the list its chain has so far. */
  ghost predicate Passes(net: Network, action: Action, subjects: seq<Subject>) {
    && !(action.isGlobal && action.subject != 0)
    && net.family(action.chain).Some?
    && net.hasAdapter(net.family(action.chain).value, action.version)
    && (Acts(action) ==>
          && net.initializes(action.chain, action.version)
          && net.curseEnabled(action.chain)
          && (!action.isGlobal && GLOBAL_CURSE_SUBJECT !in subjects ==>
                net.isConnected(action.chain, action.subject) && SubjectFor(net, action.chain, action.subject).Some?))
  }

  /** The list of the action's chain afterwards. */
  ghost function NextSubjects(net: Network, action: Action, subjects: seq<Subject>): seq<Subject>
    requires Passes(net, action, subjects) && Acts(action)
  {
    if action.isGlobal then [GLOBAL_CURSE_SUBJECT]
    else if GLOBAL_CURSE_SUBJECT in subjects then subjects
    else
      var s := SubjectFor(net, action.chain, action.subject).value;
      if s in subjects then subjects else subjects + [s]
  }

  lemma NextIsGroup(net: Network, actions: seq<Action>, n: nat, subjects: seq<Subject>)
    requires n < |actions| && Passes(net, actions[n], subjects) && Acts(actions[n])
    requires IsGroupOn(net, actions[..n], actions[n].chain, subjects)
    ensures IsGroupOn(net, actions[..n + 1], actions[n].chain, NextSubjects(net, actions[n], subjects))
  {
    var action, c := actions[n], actions[n].chain;
    if action.isGlobal {
      GroupGlobal(net, actions, n, c);
    } else if GLOBAL_CURSE_SUBJECT in subjects {
      assert GLOBAL_CURSE_SUBJECT in SetOf(subjects);
      GroupStays(net, actions, n, c, subjects);
    } else {
      var s := SubjectFor(net, c, action.subject).value;
      if s in subjects {
        assert s in SetOf(subjects);
        GroupStays(net, actions, n, c, subjects);
      } else {
        GroupGrows(net, actions, n, c, subjects, s);
      }
    }
  }

  lemma SkippedAction(net: Network, actions: seq<Action>, n: nat, g: Grouped)
    requires n < |actions| && IsGrouping(net, actions[..n], g) && !Acts(actions[n])
    ensures IsGrouping(net, actions[..n + 1], g)
  {
    forall c
      ensures c in g <==> ActsOn(actions[..n + 1], c)
      ensures c in g ==> IsGroupOn(net, actions[..n + 1], c, g[c])
    {
      GlobalStep(actions, n, c);
      if c in g {
        GroupStays(net, actions, n, c, g[c]);
      }
    }
  }

  lemma GroupedAction(net: Network, actions: seq<Action>, n: nat, g: Grouped, subjects: seq<Subject>, g': Grouped)
    requires n < |actions| && IsGrouping(net, actions[..n], g) && Acts(actions[n])
    requires subjects == if actions[n].chain in g then g[actions[n].chain] else []
    requires Passes(net, actions[n], subjects) && g' == g[actions[n].chain := NextSubjects(net, actions[n], subjects)]
    ensures IsGrouping(net, actions[..n + 1], g')
  {
    var c := actions[n].chain;
    if c !in g {
      GroupStart(net, actions, n, c);
    }
    NextIsGroup(net, actions, n, subjects);
    OthersStay(net, actions, n, g);
    forall d
      ensures d in g' <==> ActsOn(actions[..n + 1], d)
    {
      GlobalStep(actions, n, d);
    }
  }

  /** The list of chain c so far. */
  function ListOn(g: Grouped, c: ChainSelector): seq<Subject> {
    if c in g then g[c] else []
  }

  /** The grouping of the actions one after the other; none if one of them fails a check. */
  ghost function Group(net: Network, actions: seq<Action>): Option<Grouped> {
    if actions == [] then Some(map[])
    else
      var before := Group(net, actions[..|actions| - 1]);
      var action := actions[|actions| - 1];
      if before.None? || !Passes(net, action, ListOn(before.value, action.chain)) then None
      else if !Acts(action) then before
      else Some(before.value[action.chain := NextSubjects(net, action, ListOn(before.value, action.chain))])
  }

  /** groupRMNSubjectBySelector. */
  method GroupSubjects(net: Network, actions: seq<Action>) returns (g: Option<Grouped>)
    ensures g == Group(net, actions)
  {
    var grouped: Grouped := map[];
    for n := 0 to |actions|
      invariant Group(net, actions[..n]) == Some(grouped)
    {
      assert actions[..n + 1][..n] == actions[..n];
      var action := actions[n];
      var subjects := ListOn(grouped, action.chain);
      var family := net.family(action.chain);
      if (action.isGlobal && action.subject != 0) || family.None? || !net.hasAdapter(family.value, action.version) {
        FailureStays(net, actions, n + 1);
        return None;
      }
      if action.subject == action.chain {
        continue;
      }
      if !net.initializes(action.chain, action.version) || !net.curseEnabled(action.chain) {
        FailureStays(net, actions, n + 1);
        return None;
      }
      if action.isGlobal {
        grouped := grouped[action.chain := [GLOBAL_CURSE_SUBJECT]];
        continue;
      }
      if GLOBAL_CURSE_SUBJECT in subjects {
        grouped := grouped[action.chain := subjects];
        continue;
      }
      var encode := net.subjectOf(family.value);
      if !net.isConnected(action.chain, action.subject) || encode.None? {
        FailureStays(net, actions, n + 1);
        return None;
      }
      var subject := encode.value(action.subject);
      grouped := grouped[action.chain := if subject in subjects then subjects else subjects + [subject]];
    }
    assert actions[..|actions|] == actions;
    return Some(grouped);
  }

  lemma {:induction false} FailureStays(net: Network, actions: seq<Action>, n: nat)
    requires n <= |actions| && Group(net, actions[..n]).None?
    ensures Group(net, actions).None?
    decreases |actions| - n
  {
    if n == |actions| {
      assert actions[..n] == actions;
    } else {
      assert actions[..n + 1][..n] == actions[..n];
      FailureStays(net, actions, n + 1);
    }
  }

  /** What a grouping contains. */
  lemma {:induction false} GroupIsGrouping(net: Network, actions: seq<Action>)
    requires Group(net, actions).Some?
    ensures IsGrouping(net, actions, Group(net, actions).value)
  {
    if actions != [] {
      var n := |actions| - 1;
      GroupIsGrouping(net, actions[..n]);
      var before := Group(net, actions[..n]).value;
      assert actions[..n + 1] == actions;
      if Acts(actions[n]) {
        GroupedAction(net, actions, n, before, ListOn(before, actions[n].chain), Group(net, actions).value);
      } else {
        SkippedAction(net, actions, n, before);
      }
    }
  }

  /** The n-th action is the first to fail a check. */
  ghost predicate FailsAt(net: Network, actions: seq<Action>, n: int) {
    && 0 <= n < |actions| && Group(net, actions[..n]).Some?
    && !Passes(net, actions[n], ListOn(Group(net, actions[..n]).value, actions[n].chain))
  }

  /** Actions are refused exactly if one of them fails a check. */
  lemma {:induction false} RefusedExactly(net: Network, actions: seq<Action>)
    ensures Group(net, actions).None? <==> exists n :: FailsAt(net, actions, n)
  {
    forall n | FailsAt(net, actions, n)
      ensures Group(net, actions).None?
    {
      assert actions[..n + 1][..n] == actions[..n];
      FailureStays(net, actions, n + 1);
    }
    if actions != [] && Group(net, actions).None? {
      var last := |actions| - 1;
      RefusedExactly(net, actions[..last]);
      if Group(net, actions[..last]).None? {
        var n :| FailsAt(net, actions[..last], n);
        assert actions[..last][..n] == actions[..n];
        assert FailsAt(net, actions, n);
      } else {
        assert FailsAt(net, actions, last);
      }
    }
  }
}
