/** Carrying out curse configurations, and what they leave behind on the chains. */
module FastCurseApply {
  import opened CcipTypes
  import opened Sorting
  import opened FastCurse

  /** The cursed subjects of every chain. */
  type Curses = map<ChainSelector, set<Subject>>

  function CursedOn(state: Curses, c: ChainSelector): set<Subject> {
    if c in state then state[c] else {}
  }

  /** Chain c refuses its lane with t: the subject of t or the global subject is cursed on it. */
  ghost predicate Blocks(net: Network, state: Curses, c: ChainSelector, t: ChainSelector) {
    Covers(net, CursedOn(state, c), c, t)
  }

  /** What a chain has cursed after cursing the given subjects. Without force a chain under a global
      curse is left alone. */
  function AfterCurse(cursed: set<Subject>, subjects: set<Subject>, force: bool): set<Subject> {
    if !force && GLOBAL_CURSE_SUBJECT in cursed then cursed else cursed + subjects
  }

  method FilterSubjectsToCurse(force: bool, cursed: set<Subject>, subjects: seq<Subject>) returns (r: seq<Subject>)
    ensures cursed + SetOf(r) == AfterCurse(cursed, SetOf(subjects), force)
    ensures !force ==> SetOf(r) !! cursed
  {
    if force {
      return subjects;
    }
    if GLOBAL_CURSE_SUBJECT in cursed {
      assert SetOf<Subject>([]) == {};
      return [];
    }
    r := [];
    for i := 0 to |subjects|
      invariant cursed + SetOf(r) == cursed + SetOf(subjects[..i])
      invariant SetOf(r) !! cursed
    {
      assert SetOf(subjects[..i + 1]) == SetOf(subjects[..i]) + {subjects[i]};
      if subjects[i] in cursed {
        continue;
      }
      assert SetOf(r + [subjects[i]]) == SetOf(r) + {subjects[i]};
      r := r + [subjects[i]];
    }
    assert subjects[..|subjects|] == subjects;
  }

  /** state' is state with the grouped subjects cursed. */
  ghost predicate Cursed(state: Curses, g: Grouped, force: bool, state': Curses) {
    forall c: ChainSelector :: CursedOn(state', c) == AfterCurse(CursedOn(state, c), SubjectsOf(g, c), force)
  }

  /** state' is state with the grouped subjects no longer cursed. */
  ghost predicate Uncursed(state: Curses, g: Grouped, state': Curses) {
    forall c: ChainSelector :: CursedOn(state', c) == CursedOn(state, c) - SubjectsOf(g, c)
  }

  /** The loop over the chains, in any order. */
  method CurseGroups(state: Curses, g: Grouped, force: bool) returns (now: Curses)
    ensures Cursed(state, g, force, now)
  {
    now := state;
    var rest := g.Keys;
    while rest != {}
      invariant rest <= g.Keys
      invariant forall c: ChainSelector :: c in rest ==> CursedOn(now, c) == CursedOn(state, c)
      invariant forall c: ChainSelector :: c !in rest ==>
                  CursedOn(now, c) == AfterCurse(CursedOn(state, c), SubjectsOf(g, c), force)
    {
      var c :| c in rest;
      rest := rest - {c};
      var subjects := FilterSubjectsToCurse(force, CursedOn(now, c), g[c]);
      if |subjects| > 0 {
        now := now[c := CursedOn(now, c) + set s | s in subjects];
      } else {
        assert SetOf(subjects) == {};
      }
    }
  }

  /** None if the configuration is refused or cannot be grouped, else the new state of all chains. */
  method ApplyCurse(net: Network, state: Curses, cfg: Config) returns (r: Option<Curses>, ghost g: Grouped)
    ensures r.Some? <==> Bidirectional(cfg.actions) && !exists n :: FailsAt(net, cfg.actions, n)
    ensures r.Some? ==> IsGrouping(net, cfg.actions, g) && Cursed(state, g, cfg.force, r.value)
  {
    g := map[];
    var ok := ValidateBidirectionalLaneActions(cfg.actions);
    if !ok {
      return None, g;
    }
    var grouped := GroupSubjects(net, cfg.actions);
    RefusedExactly(net, cfg.actions);
    if grouped.None? {
      return None, g;
    }
    GroupIsGrouping(net, cfg.actions);
    var now := CurseGroups(state, grouped.value, cfg.force);
    return Some(now), grouped.value;
  }

  /** The subjects to uncurse; with force also those that are not cursed. */
  method FilterSubjectsToUncurse(force: bool, cursed: set<Subject>, subjects: seq<Subject>) returns (r: seq<Subject>)
    ensures cursed - SetOf(r) == cursed - SetOf(subjects)
  {
    r := [];
    for i := 0 to |subjects|
      invariant cursed - SetOf(r) == cursed - SetOf(subjects[..i])
    {
      assert SetOf(subjects[..i + 1]) == SetOf(subjects[..i]) + {subjects[i]};
      assert SetOf(r + [subjects[i]]) == SetOf(r) + {subjects[i]};
      if force {
        r := r + [subjects[i]];
        continue;
      }
      if subjects[i] !in cursed {
        continue;
      }
      r := r + [subjects[i]];
    }
    assert subjects[..|subjects|] == subjects;
  }

  method UncurseGroups(state: Curses, g: Grouped, force: bool) returns (now: Curses)
    ensures Uncursed(state, g, now)
  {
    now := state;
    var rest := g.Keys;
    while rest != {}
      invariant rest <= g.Keys
      invariant forall c: ChainSelector :: c in rest ==> CursedOn(now, c) == CursedOn(state, c)
      invariant forall c: ChainSelector :: c !in rest ==> CursedOn(now, c) == CursedOn(state, c) - SubjectsOf(g, c)
    {
      var c :| c in rest;
      rest := rest - {c};
      var subjects := FilterSubjectsToUncurse(force, CursedOn(now, c), g[c]);
      if |subjects| > 0 {
        now := now[c := CursedOn(now, c) - set s | s in subjects];
      } else {
        assert SetOf(subjects) == {};
      }
    }
  }

  method ApplyUncurse(net: Network, state: Curses, cfg: Config) returns (r: Option<Curses>, ghost g: Grouped)
    ensures r.Some? <==> Bidirectional(cfg.actions) && !exists n :: FailsAt(net, cfg.actions, n)
    ensures r.Some? ==> IsGrouping(net, cfg.actions, g) && Uncursed(state, g, r.value)
  {
    g := map[];
    var ok := ValidateBidirectionalLaneActions(cfg.actions);
    if !ok {
      return None, g;
    }
    var grouped := GroupSubjects(net, cfg.actions);
    RefusedExactly(net, cfg.actions);
    if grouped.None? {
      return None, g;
    }
    GroupIsGrouping(net, cfg.actions);
    var now := UncurseGroups(state, grouped.value, cfg.force);
    return Some(now), grouped.value;
  }

  // ---------- cursing ----------

  lemma CoversMore(net: Network, a: set<Subject>, b: set<Subject>, c: ChainSelector, t: ChainSelector)
    requires a <= b && Covers(net, a, c, t)
    ensures Covers(net, b, c, t)
  {
  }

  lemma CursedBlocks(net: Network, state: Curses, actions: seq<Action>, g: Grouped, force: bool, state': Curses,
                     c: ChainSelector, t: ChainSelector)
    requires IsGrouping(net, actions, g) && Cursed(state, g, force, state') && HasLane(actions, c, t) && c != t
    ensures Blocks(net, state', c, t)
  {
    var i :| IsLane(actions, i, c, t);
    assert Acts(actions[i]) && ActsOn(actions, c);
    assert IsGroupOn(net, actions, c, g[c]);
    if force || GLOBAL_CURSE_SUBJECT !in CursedOn(state, c) {
      CoversMore(net, SubjectsOf(g, c), CursedOn(state', c), c, t);
    }
  }

  /** No lane is left cursed one way: after a successful curse, forced or not, both ends of every lane
      in the configuration block it. */
  lemma BothEndsBlocked(net: Network, state: Curses, cfg: Config, g: Grouped, state': Curses, c: ChainSelector,
                        t: ChainSelector)
    requires Bidirectional(cfg.actions) && IsGrouping(net, cfg.actions, g) && Cursed(state, g, cfg.force, state')
    requires HasLane(cfg.actions, c, t) && c != t
    ensures Blocks(net, state', c, t) && Blocks(net, state', t, c)
  {
    CursedBlocks(net, state, cfg.actions, g, cfg.force, state', c, t);
    CursedBlocks(net, state, cfg.actions, g, cfg.force, state', t, c);
  }

  /** Nothing is uncursed, nothing is cursed on a chain without an action, and whatever is newly cursed
      was asked for. */
  lemma OnlyAskedIsCursed(net: Network, state: Curses, cfg: Config, g: Grouped, state': Curses, c: ChainSelector,
                          s: Subject)
    requires IsGrouping(net, cfg.actions, g) && Cursed(state, g, cfg.force, state')
    ensures s in CursedOn(state, c) ==> s in CursedOn(state', c)
    ensures s in CursedOn(state', c) && s !in CursedOn(state, c) ==>
              if GlobalOn(cfg.actions, c) then s == GLOBAL_CURSE_SUBJECT else Wanted(net, cfg.actions, c, s)
  {
    if s in CursedOn(state', c) && s !in CursedOn(state, c) {
      assert s in SubjectsOf(g, c);
      assert IsGroupOn(net, cfg.actions, c, g[c]);
    }
  }

  /** Cursing again changes nothing. */
  lemma CurseTwice(state: Curses, g: Grouped, force: bool, once: Curses, twice: Curses, c: ChainSelector)
    requires Cursed(state, g, force, once) && Cursed(once, g, force, twice)
    ensures CursedOn(twice, c) == CursedOn(once, c)
  {
  }

  // ---------- every pair of chains ----------

  /** No chain is encoded as the global subject. */
  ghost predicate NoClash(net: Network) {
    forall c: ChainSelector, t: ChainSelector :: SubjectFor(net, c, t) != Some(GLOBAL_CURSE_SUBJECT)
  }

  lemma GlobalGroup(net: Network, actions: seq<Action>, g: Grouped, c: ChainSelector)
    requires IsGrouping(net, actions, g) && GlobalOn(actions, c)
    ensures SubjectsOf(g, c) == {GLOBAL_CURSE_SUBJECT}
  {
    var i :| 0 <= i < |actions| && actions[i].chain == c && actions[i].isGlobal && Acts(actions[i]);
    assert ActsOn(actions, c);
    assert IsGroupOn(net, actions, c, g[c]);
  }

  lemma WantedIsGrouped(net: Network, actions: seq<Action>, g: Grouped, c: ChainSelector, s: Subject)
    requires NoClash(net) && IsGrouping(net, actions, g) && !GlobalOn(actions, c)
    ensures s in SubjectsOf(g, c) <==> Wanted(net, actions, c, s)
    ensures GLOBAL_CURSE_SUBJECT !in SubjectsOf(g, c)
  {
    if c in g {
      assert IsGroupOn(net, actions, c, g[c]);
    }
    if Wanted(net, actions, c, s) {
      var t :| t != c && HasLane(actions, c, t) && SubjectFor(net, c, t) == Some(s);
      var i :| IsLane(actions, i, c, t);
      assert Acts(actions[i]) && ActsOn(actions, c);
    }
  }

  /** A subject for t is wanted on c, whatever lane it is wanted for. */
  ghost predicate WantedFor(net: Network, actions: seq<Action>, c: ChainSelector, t: ChainSelector) {
    SubjectFor(net, c, t).Some? && Wanted(net, actions, c, SubjectFor(net, c, t).value)
  }

  ghost predicate SubjectCursed(net: Network, state: Curses, c: ChainSelector, t: ChainSelector) {
    SubjectFor(net, c, t).Some? && SubjectFor(net, c, t).value in CursedOn(state, c)
  }

  lemma BlocksParts(net: Network, state: Curses, c: ChainSelector, t: ChainSelector)
    ensures Blocks(net, state, c, t) <==> GLOBAL_CURSE_SUBJECT in CursedOn(state, c) || SubjectCursed(net, state, c, t)
  {
  }

  /** After a curse c blocks t exactly if it did before, or was cursed globally, or for a lane whose
      subject is that of t. */
  lemma CurseExactly(net: Network, state: Curses, actions: seq<Action>, g: Grouped, force: bool, state': Curses,
                     c: ChainSelector, t: ChainSelector)
    requires NoClash(net) && IsGrouping(net, actions, g) && Cursed(state, g, force, state')
    ensures Blocks(net, state', c, t) <==>
            Blocks(net, state, c, t) || GlobalOn(actions, c) || WantedFor(net, actions, c, t)
  {
    BlocksParts(net, state, c, t);
    BlocksParts(net, state', c, t);
    if GlobalOn(actions, c) {
      GlobalGroup(net, actions, g, c);
    } else if SubjectFor(net, c, t).Some? {
      WantedIsGrouped(net, actions, g, c, SubjectFor(net, c, t).value);
    } else {
      WantedIsGrouped(net, actions, g, c, GLOBAL_CURSE_SUBJECT);
    }
  }

  /** What still blocks t on c after uncursing: with a global action on c only the subject of t counts,
      and it stays; without one a global curse stays, and so does the subject unless it was asked for. */
  ghost predicate StillBlocked(net: Network, state: Curses, actions: seq<Action>, c: ChainSelector, t: ChainSelector) {
    if GlobalOn(actions, c) then SubjectCursed(net, state, c, t)
    else
      || GLOBAL_CURSE_SUBJECT in CursedOn(state, c)
      || (SubjectCursed(net, state, c, t) && !WantedFor(net, actions, c, t))
  }

  /** After uncursing c blocks t exactly then. */
  lemma UncurseExactly(net: Network, state: Curses, actions: seq<Action>, g: Grouped, state': Curses,
                       c: ChainSelector, t: ChainSelector)
    requires NoClash(net) && IsGrouping(net, actions, g) && Uncursed(state, g, state')
    ensures Blocks(net, state', c, t) <==> StillBlocked(net, state, actions, c, t)
  {
    BlocksParts(net, state', c, t);
    if GlobalOn(actions, c) {
      GlobalGroup(net, actions, g, c);
      assert SubjectFor(net, c, t) != Some(GLOBAL_CURSE_SUBJECT);
    } else if SubjectFor(net, c, t).Some? {
      WantedIsGrouped(net, actions, g, c, SubjectFor(net, c, t).value);
    } else {
      WantedIsGrouped(net, actions, g, c, GLOBAL_CURSE_SUBJECT);
    }
  }

  // ---------- lanes cursed one way ----------

  /** Different chains have different subjects, and none has the global one. */
  ghost predicate FaithfulSubjects(net: Network) {
    && NoClash(net)
    && forall c: ChainSelector, t: ChainSelector, u: ChainSelector ::
         SubjectFor(net, c, t).Some? && SubjectFor(net, c, t) == SubjectFor(net, c, u) ==> t == u
  }

  /** The generic encoding is faithful. */
  lemma GenericIsFaithful(net: Network)
    requires forall f: Family, t: ChainSelector :: net.subjectOf(f).Some? ==>
               net.subjectOf(f).value(t) == GenericSelectorToSubject(t)
    ensures FaithfulSubjects(net)
  {
    forall c: ChainSelector, t: ChainSelector | SubjectFor(net, c, t).Some?
      ensures SubjectFor(net, c, t).value == GenericSelectorToSubject(t)
      ensures GenericSubjectToSelector(SubjectFor(net, c, t).value) == t
      ensures SubjectFor(net, c, t).value != GLOBAL_CURSE_SUBJECT
    {
      var f := net.family(c).value;
      assert net.subjectOf(f).Some?;
      SubjectRoundTrip(t);
    }
  }

  /** Grouping a lane finds a subject for its other end, unless the chain is cursed globally. */
  lemma LaneHasSubject(net: Network, actions: seq<Action>, g: Grouped, c: ChainSelector, t: ChainSelector)
    requires NoClash(net) && IsGrouping(net, actions, g) && HasLane(actions, c, t) && c != t && !GlobalOn(actions, c)
    ensures SubjectFor(net, c, t).Some?
  {
    var i :| IsLane(actions, i, c, t);
    assert Acts(actions[i]) && ActsOn(actions, c);
    assert IsGroupOn(net, actions, c, g[c]);
    WantedIsGrouped(net, actions, g, c, GLOBAL_CURSE_SUBJECT);
  }

  /** With faithful subjects: c blocks t after a curse exactly if it did before, was cursed globally, or
      the lane is in the configuration. */
  lemma CurseBlocksExactly(net: Network, state: Curses, actions: seq<Action>, g: Grouped, force: bool, state': Curses,
                           c: ChainSelector, t: ChainSelector)
    requires FaithfulSubjects(net) && c != t && IsGrouping(net, actions, g) && Cursed(state, g, force, state')
    ensures Blocks(net, state', c, t) <==> Blocks(net, state, c, t) || GlobalOn(actions, c) || HasLane(actions, c, t)
  {
    CurseExactly(net, state, actions, g, force, state', c, t);
    if HasLane(actions, c, t) && !GlobalOn(actions, c) {
      LaneHasSubject(net, actions, g, c, t);
    }
  }

  /** A curse leaves the lane between two chains blocked on both ends or on none exactly if the
      configuration lists it, or if old curses and global actions together reach both ends or none. */
  lemma CurseOneWayExactly(net: Network, state: Curses, cfg: Config, g: Grouped, state': Curses, c: ChainSelector,
                           t: ChainSelector)
    requires FaithfulSubjects(net) && c != t
    requires Bidirectional(cfg.actions) && IsGrouping(net, cfg.actions, g) && Cursed(state, g, cfg.force, state')
    ensures (Blocks(net, state', c, t) <==> Blocks(net, state', t, c)) <==>
            || HasLane(cfg.actions, c, t)
            || (Blocks(net, state, c, t) || GlobalOn(cfg.actions, c) <==>
                 Blocks(net, state, t, c) || GlobalOn(cfg.actions, t))
  {
    CurseBlocksExactly(net, state, cfg.actions, g, cfg.force, state', c, t);
    CurseBlocksExactly(net, state, cfg.actions, g, cfg.force, state', t, c);
  }

  /** A global action alone is accepted, and leaves every lane of an uncursed chain cursed one way. */
  lemma GlobalAloneIsOneWay(net: Network, state: Curses, c: ChainSelector, v: Version, force: bool, g: Grouped,
                            state': Curses, t: ChainSelector)
    requires NoClash(net) && c != 0 && c != t && !Blocks(net, state, t, c)
    requires IsGrouping(net, [Action(true, c, 0, Some(v))], g) && Cursed(state, g, force, state')
    ensures Bidirectional([Action(true, c, 0, Some(v))])
    ensures Blocks(net, state', c, t) && !Blocks(net, state', t, c)
  {
    var actions := [Action(true, c, 0, Some(v))];
    assert Acts(actions[0]) && GlobalOn(actions, c) && !GlobalOn(actions, t);
    assert forall d, e :: !HasLane(actions, d, e);
    CurseExactly(net, state, actions, g, force, state', c, t);
    CurseExactly(net, state, actions, g, force, state', t, c);
  }

  /** Uncursing leaves the lane between two chains cursed one way exactly if what still blocks it is
      there on one end only. */
  lemma UncurseOneWayExactly(net: Network, state: Curses, cfg: Config, g: Grouped, state': Curses, c: ChainSelector,
                             t: ChainSelector)
    requires NoClash(net) && IsGrouping(net, cfg.actions, g) && Uncursed(state, g, state')
    ensures (Blocks(net, state', c, t) <==> Blocks(net, state', t, c)) <==>
            (StillBlocked(net, state, cfg.actions, c, t) <==> StillBlocked(net, state, cfg.actions, t, c))
  {
    UncurseExactly(net, state, cfg.actions, g, state', c, t);
    UncurseExactly(net, state, cfg.actions, g, state', t, c);
  }

  // ---------- cursing a chain globally ----------

  type Selectors = map<ChainSelector, Option<Version>>

  ghost predicate LanesPaired(actions: seq<Action>) {
    forall c, t :: HasLane(actions, c, t) ==> HasLane(actions, t, c)
  }

  lemma LaneAppend(actions: seq<Action>, a: Action, c: ChainSelector, t: ChainSelector)
    ensures HasLane(actions + [a], c, t) <==> HasLane(actions, c, t) || (!a.isGlobal && a.chain == c && a.subject == t)
  {
    LaneStep(actions + [a], |actions|, c, t);
    assert (actions + [a])[..|actions|] == actions;
    assert (actions + [a])[..|actions| + 1] == actions + [a];
  }

  /** Two more actions, a lane in both directions. */
  lemma PairedStep(actions: seq<Action>, c: ChainSelector, t: ChainSelector, v: Option<Version>, w: Option<Version>)
    requires LanesPaired(actions)
    ensures var all := actions + [Action(false, c, t, v)] + [Action(false, t, c, w)];
            && LanesPaired(all) && HasLane(all, c, t) && HasLane(all, t, c)
            && forall d, e :: HasLane(actions, d, e) ==> HasLane(all, d, e)
  {
    var a, b := Action(false, c, t, v), Action(false, t, c, w);
    forall d, e
      ensures HasLane(actions + [a] + [b], d, e) <==> HasLane(actions, d, e) || (d == c && e == t) || (d == t && e == c)
    {
      LaneAppend(actions, a, d, e);
      LaneAppend(actions + [a], b, d, e);
    }
  }

  lemma GlobalAdded(actions: seq<Action>, a: Action)
    requires LanesPaired(actions) && a.isGlobal
    ensures LanesPaired(actions + [a])
  {
    forall d, e
      ensures HasLane(actions + [a], d, e) <==> HasLane(actions, d, e)
    {
      LaneAppend(actions, a, d, e);
    }
  }

  /** The checks on a connected chain: a known family with a subject adapter, and a derivable version. */
  ghost predicate Derivable(net: Network, d: ChainSelector) {
    net.family(d).Some? && net.subjectOf(net.family(d).value).Some? && net.deriveVersion(d).Some?
  }

  /** All that is asked about a chain to be cursed globally. */
  ghost predicate Answers(net: Network, c: ChainSelector, version: Option<Version>) {
    && net.family(c).Some? && net.hasAdapter(net.family(c).value, version) && net.initializes(c, version)
    && net.connectedChains(c).Some?
    && forall k :: 0 <= k < |net.connectedChains(c).value| ==>
         var d := net.connectedChains(c).value[k];
         net.family(d).Some? && net.subjectOf(net.family(d).value).Some? && net.deriveVersion(d).Some?
  }

  /** An action that cursing c globally calls for: its global action, or one direction of a lane of it. */
  ghost predicate StemsFrom(net: Network, c: ChainSelector, version: Option<Version>, connected: seq<ChainSelector>,
                            a: Action) {
    || a == Action(true, c, 0, version)
    || exists k :: 0 <= k < |connected| && Derivable(net, connected[k])
                   && (a == Action(false, connected[k], c, net.deriveVersion(connected[k]).value)
                        || a == Action(false, c, connected[k], version))
  }

  /** Both directions between c and each of its connected chains. */
  method ConnectedActions(net: Network, actions0: seq<Action>, c: ChainSelector, version: Option<Version>,
                          connected: seq<ChainSelector>)
    returns (r: Option<seq<Action>>)
    requires LanesPaired(actions0)
    ensures r.Some? ==> LanesPaired(r.value) && |actions0| <= |r.value| && actions0 == r.value[..|actions0|]
    ensures r.Some? ==>
              forall k :: 0 <= k < |connected| ==>
                  HasLane(r.value, c, connected[k]) && HasLane(r.value, connected[k], c)
    ensures r.Some? ==> forall a :: a in r.value ==> a in actions0 || StemsFrom(net, c, version, connected, a)
    ensures r.Some? <==> forall k :: 0 <= k < |connected| ==> Derivable(net, connected[k])
  {
    var actions := actions0;
    for k := 0 to |connected|
      invariant LanesPaired(actions) && |actions0| <= |actions| && actions0 == actions[..|actions0|]
      invariant forall j :: 0 <= j < k ==> HasLane(actions, c, connected[j]) && HasLane(actions, connected[j], c)
      invariant forall a :: a in actions ==> a in actions0 || StemsFrom(net, c, version, connected, a)
      invariant forall j :: 0 <= j < k ==> Derivable(net, connected[j])
    {
      var d := connected[k];
      var family := net.family(d);
      if family.None? || net.subjectOf(family.value).None? || net.deriveVersion(d).None? {
        return None;
      }
      PairedStep(actions, d, c, net.deriveVersion(d).value, version);
      actions := actions + [Action(false, d, c, net.deriveVersion(d).value)];
      actions := actions + [Action(false, c, d, version)];
    }
    return Some(actions);
  }

  lemma LanesInPrefix(actions: seq<Action>, more: seq<Action>, c: ChainSelector, t: ChainSelector)
    requires |actions| <= |more| && actions == more[..|actions|] && HasLane(actions, c, t)
    ensures HasLane(more, c, t)
  {
    var i :| IsLane(actions, i, c, t);
    assert IsLane(more, i, c, t);
  }

  /** The global action of chain c is there, and both directions of each of its lanes. */
  ghost predicate CoversChain(net: Network, actions: seq<Action>, c: ChainSelector, version: Option<Version>) {
    && Action(true, c, 0, version) in actions
    && net.connectedChains(c).Some?
    && forall k :: 0 <= k < |net.connectedChains(c).value| ==>
         HasLane(actions, c, net.connectedChains(c).value[k]) && HasLane(actions, net.connectedChains(c).value[k], c)
  }

  lemma CoversChainStays(net: Network, actions: seq<Action>, more: seq<Action>, c: ChainSelector,
                         version: Option<Version>)
    requires |actions| <= |more| && actions == more[..|actions|] && CoversChain(net, actions, c, version)
    ensures CoversChain(net, more, c, version)
  {
    forall k | 0 <= k < |net.connectedChains(c).value|
      ensures HasLane(more, c, net.connectedChains(c).value[k]) && HasLane(more, net.connectedChains(c).value[k], c)
    {
      LanesInPrefix(actions, more, c, net.connectedChains(c).value[k]);
      LanesInPrefix(actions, more, net.connectedChains(c).value[k], c);
    }
  }

  /** The actions of one chain to be cursed globally. */
  method GlobalActions(net: Network, actions0: seq<Action>, c: ChainSelector,
                       version: Option<Version>) returns (r: Option<seq<Action>>)
    requires LanesPaired(actions0)
    ensures r.Some? ==> LanesPaired(r.value) && CoversChain(net, r.value, c, version)
    ensures r.Some? ==> |actions0| <= |r.value| && actions0 == r.value[..|actions0|]
    ensures r.Some? ==>
              forall a :: a in r.value ==> a in actions0 || StemsFrom(net, c, version, net.connectedChains(c).value, a)
    ensures r.Some? <==> Answers(net, c, version)
  {
    var global := Action(true, c, 0, version);
    var family := net.family(c);
    if family.None? || !net.hasAdapter(family.value, version) || !net.initializes(c, version)
      || net.connectedChains(c).None? {
      return None;
    }
    GlobalAdded(actions0, global);
    r := ConnectedActions(net, actions0 + [global], c, version, net.connectedChains(c).value);
    if r.Some? {
      assert r.value[..|actions0 + [global]|][|actions0|] == global;
      assert r.value[..|actions0|] == r.value[..|actions0| + 1][..|actions0|];
    }
  }

  ghost predicate VersionsGiven(actions: seq<Action>) {
    forall i :: 0 <= i < |actions| && !actions[i].isGlobal ==> actions[i].version.Some?
  }

  /** Cursing the selected chains globally calls for each of the actions. */
  ghost predicate OnlyFor(net: Network, selectors: Selectors, actions: seq<Action>) {
    forall a :: a in actions ==>
      exists c :: c in selectors && net.connectedChains(c).Some?
        && StemsFrom(net, c, selectors[c], net.connectedChains(c).value, a)
  }

  /** The configuration for cursing the selected chains globally, if all that is asked about them is
      answered; it is accepted exactly if its lane actions have versions. */
  method FormCurseConfigForGlobalCurse(net: Network, selectors: Selectors, force: bool) returns (r: Option<Config>)
    ensures r.Some? ==> r.value.force == force && (Bidirectional(r.value.actions) <==> VersionsGiven(r.value.actions))
    ensures r.Some? ==> forall c :: c in selectors ==> CoversChain(net, r.value.actions, c, selectors[c])
    ensures r.Some? ==> OnlyFor(net, selectors, r.value.actions)
    ensures r.Some? <==> forall c :: c in selectors ==> Answers(net, c, selectors[c])
  {
    var actions: seq<Action> := [];
    var rest := selectors.Keys;
    while rest != {}
      invariant rest <= selectors.Keys && LanesPaired(actions)
      invariant forall c :: c in selectors && c !in rest ==> CoversChain(net, actions, c, selectors[c])
      invariant OnlyFor(net, selectors, actions)
      invariant forall c :: c in selectors && c !in rest ==> Answers(net, c, selectors[c])
    {
      var c :| c in rest;
      rest := rest - {c};
      var more := GlobalActions(net, actions, c, selectors[c]);
      if more.None? {
        return None;
      }
      forall d | d in selectors && d !in rest && d != c
        ensures CoversChain(net, more.value, d, selectors[d])
      {
        CoversChainStays(net, actions, more.value, d, selectors[d]);
      }
      actions := more.value;
    }
    return Some(Config(actions, force));
  }

  /** After a global curse of the selected chains, each of them has the global subject cursed, and every
      chain connected to it blocks it in turn. */
  lemma GloballyCursed(net: Network, state: Curses, cfg: Config, selectors: Selectors, g: Grouped, state': Curses,
                       c: ChainSelector, d: ChainSelector)
    requires Bidirectional(cfg.actions) && IsGrouping(net, cfg.actions, g) && Cursed(state, g, cfg.force, state')
    requires c in selectors && c != 0 && CoversChain(net, cfg.actions, c, selectors[c])
    requires d in net.connectedChains(c).value && d != c
    ensures GLOBAL_CURSE_SUBJECT in CursedOn(state', c)
    ensures Blocks(net, state', d, c)
  {
    var i :| 0 <= i < |cfg.actions| && cfg.actions[i] == Action(true, c, 0, selectors[c]);
    assert Acts(cfg.actions[i]) && GlobalOn(cfg.actions, c);
    GlobalGroup(net, cfg.actions, g, c);
    var k :| 0 <= k < |net.connectedChains(c).value| && net.connectedChains(c).value[k] == d;
    assert HasLane(cfg.actions, d, c);
    CursedBlocks(net, state, cfg.actions, g, cfg.force, state', d, c);
  }

  // ---------- a lane left cursed one way ----------

  /** The actions for the lane between c and t. */
  function LaneActions(c: ChainSelector, t: ChainSelector, v: Version): seq<Action> {
    [Action(false, c, t, Some(v)), Action(false, t, c, Some(v))]
  }

  /** The actions for cursing c globally when it is connected to t. */
  function NetworkActions(c: ChainSelector, t: ChainSelector, v: Version): seq<Action> {
    [Action(true, c, 0, Some(v)), Action(false, t, c, Some(v)), Action(false, c, t, Some(v))]
  }

  lemma LaneActionFacts(c: ChainSelector, t: ChainSelector, v: Version)
    ensures HasLane(LaneActions(c, t, v), c, t) && HasLane(LaneActions(c, t, v), t, c)
    ensures Bidirectional(LaneActions(c, t, v))
    ensures !GlobalOn(LaneActions(c, t, v), c) && !GlobalOn(LaneActions(c, t, v), t)
  {
    assert IsLane(LaneActions(c, t, v), 0, c, t) && IsLane(LaneActions(c, t, v), 1, t, c);
  }

  lemma NetworkActionFacts(c: ChainSelector, t: ChainSelector, v: Version)
    requires c != t && c != 0
    ensures HasLane(NetworkActions(c, t, v), c, t) && HasLane(NetworkActions(c, t, v), t, c)
    ensures Bidirectional(NetworkActions(c, t, v))
    ensures GlobalOn(NetworkActions(c, t, v), c) && !GlobalOn(NetworkActions(c, t, v), t)
  {
    assert IsLane(NetworkActions(c, t, v), 2, c, t) && IsLane(NetworkActions(c, t, v), 1, t, c);
    assert NetworkActions(c, t, v)[0].isGlobal && Acts(NetworkActions(c, t, v)[0]);
  }

  lemma LaneIsWanted(net: Network, actions: seq<Action>, c: ChainSelector, t: ChainSelector)
    requires HasLane(actions, c, t) && c != t && SubjectFor(net, c, t).Some?
    ensures WantedFor(net, actions, c, t)
  {
  }

  /** A lane curse on a chain without a global one: no global curse, and the subject is cursed. */
  lemma LaneCursed(net: Network, state: Curses, actions: seq<Action>, g: Grouped, force: bool, state': Curses,
                   c: ChainSelector, t: ChainSelector)
    requires NoClash(net) && IsGrouping(net, actions, g) && Cursed(state, g, force, state')
    requires HasLane(actions, c, t) && c != t
    requires !GlobalOn(actions, c) && GLOBAL_CURSE_SUBJECT !in CursedOn(state, c)
    ensures GLOBAL_CURSE_SUBJECT !in CursedOn(state', c) && SubjectCursed(net, state', c, t)
  {
    LaneHasSubject(net, actions, g, c, t);
    LaneIsWanted(net, actions, c, t);
    WantedIsGrouped(net, actions, g, c, SubjectFor(net, c, t).value);
  }

  /** Uncursing does not keep what cursing establishes. Curse a lane, then curse one end globally, then
      undo the global curse with the very configuration that made it: that end still blocks the lane,
      because its list was the global subject alone, and the other end does not. */
  lemma GlobalUncurseLeavesOneWay(net: Network, c: ChainSelector, t: ChainSelector, v: Version, force: bool,
                                  s0: Curses, g1: Grouped, s1: Curses, g2: Grouped, s2: Curses, g3: Grouped, s3: Curses)
    requires NoClash(net) && c != t && c != 0
    requires GLOBAL_CURSE_SUBJECT !in CursedOn(s0, c) && GLOBAL_CURSE_SUBJECT !in CursedOn(s0, t)
    requires IsGrouping(net, LaneActions(c, t, v), g1) && Cursed(s0, g1, force, s1)
    requires IsGrouping(net, NetworkActions(c, t, v), g2) && Cursed(s1, g2, force, s2)
    requires IsGrouping(net, NetworkActions(c, t, v), g3) && Uncursed(s2, g3, s3)
    ensures Bidirectional(LaneActions(c, t, v)) && Bidirectional(NetworkActions(c, t, v))
    ensures Blocks(net, s3, c, t) && !Blocks(net, s3, t, c)
  {
    var lane, network := LaneActions(c, t, v), NetworkActions(c, t, v);
    LaneActionFacts(c, t, v);
    NetworkActionFacts(c, t, v);
    LaneCursed(net, s0, lane, g1, force, s1, c, t);
    LaneCursed(net, s0, lane, g1, force, s1, t, c);
    LaneCursed(net, s1, network, g2, force, s2, t, c);
    assert SubjectCursed(net, s2, c, t);
    LaneIsWanted(net, network, t, c);
    UncurseExactly(net, s2, network, g3, s3, c, t);
    UncurseExactly(net, s2, network, g3, s3, t, c);
  }
}
