/** Which actions can be grouped, and what cursing and uncursing them leaves, in terms of the network's
    answers and the actions. */
module FastCurseExact {
  import opened CcipTypes
  import opened Sorting
  import opened FastCurse
  import opened FastCurseApply

  /** On chain c, the subject of chain t is the global one. */
  ghost predicate EncodedGlobal(net: Network, c: ChainSelector, t: ChainSelector) {
    && net.family(c).Some? && net.subjectOf(net.family(c).value).Some?
    && net.subjectOf(net.family(c).value).value(t) == [1, 0, 0, 0, 0, 0, 0, 0, 0, 0, 0, 0, 0, 0, 0, 1]
  }

  /** One of the actions before i curses the chain of action i globally: a global one, or one for a lane
      whose subject is the global one. */
  ghost predicate GlobalBefore(net: Network, actions: seq<Action>, i: int)
    requires 0 <= i < |actions|
  {
    exists j :: 0 <= j < i && actions[j].chain == actions[i].chain && actions[j].subject != actions[j].chain
                && (actions[j].isGlobal || EncodedGlobal(net, actions[j].chain, actions[j].subject))
  }

  /** Everything that is asked of action i. */
  ghost predicate MeetsChecks(net: Network, actions: seq<Action>, i: int)
    requires 0 <= i < |actions|
  {
    var a := actions[i];
    && (a.isGlobal ==> a.subject == 0)
    && net.family(a.chain).Some? && net.hasAdapter(net.family(a.chain).value, a.version)
    && (a.subject != a.chain ==> net.initializes(a.chain, a.version) && net.curseEnabled(a.chain))
    && (a.subject != a.chain && !a.isGlobal && !GlobalBefore(net, actions, i) ==>
          net.isConnected(a.chain, a.subject) && net.subjectOf(net.family(a.chain).value).Some?)
  }

  lemma GlobalListed(net: Network, actions: seq<Action>, n: nat, g: Grouped)
    requires n < |actions| && IsGrouping(net, actions[..n], g)
    ensures GLOBAL_CURSE_SUBJECT in ListOn(g, actions[n].chain) <==> GlobalBefore(net, actions, n)
  {
    var c, front := actions[n].chain, actions[..n];
    if GLOBAL_CURSE_SUBJECT in ListOn(g, c) {
      assert IsGroupOn(net, front, c, g[c]);
      if GlobalOn(front, c) {
        var j :| 0 <= j < |front| && front[j].chain == c && front[j].isGlobal && front[j].subject != c;
        assert actions[j] == front[j];
      } else {
        assert Wanted(net, front, c, GLOBAL_CURSE_SUBJECT);
        var t :| t != c && HasLane(front, c, t) && SubjectFor(net, c, t) == Some(GLOBAL_CURSE_SUBJECT);
        var j :| IsLane(front, j, c, t);
        assert actions[j] == front[j] && EncodedGlobal(net, c, t);
      }
    }
    if GlobalBefore(net, actions, n) {
      var j :| 0 <= j < n && actions[j].chain == c && actions[j].subject != c
               && (actions[j].isGlobal || EncodedGlobal(net, c, actions[j].subject));
      EarlierIsListed(net, front, c, j, g);
    }
  }

  lemma EarlierIsListed(net: Network, front: seq<Action>, c: ChainSelector, j: nat, g: Grouped)
    requires IsGrouping(net, front, g) && j < |front| && front[j].chain == c && front[j].subject != c
    requires front[j].isGlobal || EncodedGlobal(net, c, front[j].subject)
    ensures GLOBAL_CURSE_SUBJECT in ListOn(g, c)
  {
    assert ActsOn(front, c) && IsGroupOn(net, front, c, g[c]);
    if front[j].isGlobal {
      assert GlobalOn(front, c);
    } else {
      assert IsLane(front, j, c, front[j].subject);
      assert Covers(net, SetOf(g[c]), c, front[j].subject);
    }
  }

  lemma PassesExactly(net: Network, actions: seq<Action>, n: nat, g: Grouped)
    requires n < |actions| && IsGrouping(net, actions[..n], g)
    ensures Passes(net, actions[n], ListOn(g, actions[n].chain)) <==> MeetsChecks(net, actions, n)
  {
    GlobalListed(net, actions, n, g);
  }

  lemma ChecksOfFront(net: Network, actions: seq<Action>, n: nat, i: nat)
    requires i < n <= |actions|
    ensures MeetsChecks(net, actions[..n], i) <==> MeetsChecks(net, actions, i)
  {
    var front := actions[..n];
    assert forall j :: 0 <= j <= i ==> front[j] == actions[j];
    assert GlobalBefore(net, front, i) <==> GlobalBefore(net, actions, i);
  }

  /** Actions can be grouped exactly if every one of them meets the checks. */
  lemma {:induction false} GroupedExactly(net: Network, actions: seq<Action>)
    ensures Group(net, actions).Some? <==> forall i :: 0 <= i < |actions| ==> MeetsChecks(net, actions, i)
  {
    if actions != [] {
      var n := |actions| - 1;
      var front := actions[..n];
      GroupedExactly(net, front);
      forall i | 0 <= i < n
        ensures MeetsChecks(net, front, i) <==> MeetsChecks(net, actions, i)
      {
        ChecksOfFront(net, actions, n, i);
      }
      if Group(net, front).Some? {
        GroupIsGrouping(net, front);
        PassesExactly(net, actions, n, Group(net, front).value);
      }
    }
  }

  /** Every action meets the checks, and no lane is one-way or without a version. */
  ghost predicate Acceptable(net: Network, actions: seq<Action>) {
    && (forall i :: 0 <= i < |actions| ==> MeetsChecks(net, actions, i))
    && forall i :: 0 <= i < |actions| && !actions[i].isGlobal ==>
         && actions[i].version.Some?
         && exists j :: 0 <= j < |actions| && !actions[j].isGlobal
                        && actions[j].chain == actions[i].subject && actions[j].subject == actions[i].chain
  }

  lemma BidirectionalFields(actions: seq<Action>)
    ensures Bidirectional(actions) <==>
            forall i :: 0 <= i < |actions| && !actions[i].isGlobal ==>
              && actions[i].version.Some?
              && exists j :: 0 <= j < |actions| && !actions[j].isGlobal
                             && actions[j].chain == actions[i].subject && actions[j].subject == actions[i].chain
  {
    if Bidirectional(actions) {
      forall i | 0 <= i < |actions| && !actions[i].isGlobal
        ensures exists j :: 0 <= j < |actions| && !actions[j].isGlobal
                            && actions[j].chain == actions[i].subject && actions[j].subject == actions[i].chain
      {
        assert IsLane(actions, i, actions[i].chain, actions[i].subject);
        assert HasLane(actions, actions[i].subject, actions[i].chain);
        var j :| IsLane(actions, j, actions[i].subject, actions[i].chain);
      }
    } else if forall i :: 0 <= i < |actions| && !actions[i].isGlobal ==> actions[i].version.Some? {
      var c, t :| HasLane(actions, c, t) && !HasLane(actions, t, c);
      var i :| IsLane(actions, i, c, t);
      forall j | 0 <= j < |actions| && !actions[j].isGlobal
        ensures !(actions[j].chain == t && actions[j].subject == c)
      {
        assert !IsLane(actions, j, t, c);
      }
    }
  }

  /** A configuration is carried out exactly if it is acceptable. */
  lemma AcceptedExactly(net: Network, actions: seq<Action>)
    ensures Bidirectional(actions) && (!exists n :: FailsAt(net, actions, n)) <==> Acceptable(net, actions)
  {
    RefusedExactly(net, actions);
    GroupedExactly(net, actions);
    BidirectionalFields(actions);
  }

  // ---------- the new state ----------

  /** The actions ask for subject s on chain c: the global one if an action curses c globally, else that
      of the other end of a lane. */
  ghost predicate Asked(net: Network, actions: seq<Action>, c: ChainSelector, s: Subject) {
    if exists i :: 0 <= i < |actions| && actions[i].chain == c && actions[i].isGlobal && actions[i].subject != c
    then s == [1, 0, 0, 0, 0, 0, 0, 0, 0, 0, 0, 0, 0, 0, 0, 1]
    else exists i :: 0 <= i < |actions| && actions[i].chain == c && actions[i].subject != c
                     && net.family(c).Some? && net.subjectOf(net.family(c).value).Some?
                     && net.subjectOf(net.family(c).value).value(actions[i].subject) == s
  }

  lemma AskedIsGrouped(net: Network, actions: seq<Action>, g: Grouped, c: ChainSelector, s: Subject)
    requires NoClash(net) && IsGrouping(net, actions, g)
    ensures s in SubjectsOf(g, c) <==> Asked(net, actions, c, s)
  {
    if GlobalOn(actions, c) {
      GlobalGroup(net, actions, g, c);
    } else {
      WantedIsGrouped(net, actions, g, c, s);
      WantedIsAsked(net, actions, c, s);
    }
  }

  lemma WantedIsAsked(net: Network, actions: seq<Action>, c: ChainSelector, s: Subject)
    requires !GlobalOn(actions, c)
    ensures Wanted(net, actions, c, s) <==> Asked(net, actions, c, s)
  {
    if Wanted(net, actions, c, s) {
      var t :| t != c && HasLane(actions, c, t) && SubjectFor(net, c, t) == Some(s);
      var i :| IsLane(actions, i, c, t);
      assert actions[i].subject == t;
    }
    if Asked(net, actions, c, s) {
      var i :| 0 <= i < |actions| && actions[i].chain == c && actions[i].subject != c
               && net.family(c).Some? && net.subjectOf(net.family(c).value).Some?
               && net.subjectOf(net.family(c).value).value(actions[i].subject) == s;
      var t := actions[i].subject;
      assert IsLane(actions, i, c, t);
      assert HasLane(actions, c, t) && SubjectFor(net, c, t) == Some(s);
    }
  }

  /** After a curse chain c has what it had and what was asked for, but nothing new without force under
      a global curse. */
  lemma CursedExactly(net: Network, state: Curses, cfg: Config, g: Grouped, state': Curses, c: ChainSelector,
                      s: Subject)
    requires NoClash(net) && IsGrouping(net, cfg.actions, g) && Cursed(state, g, cfg.force, state')
    ensures s in CursedOn(state', c) <==>
            || s in CursedOn(state, c)
            || (Asked(net, cfg.actions, c, s) && (cfg.force || GLOBAL_CURSE_SUBJECT !in CursedOn(state, c)))
  {
    AskedIsGrouped(net, cfg.actions, g, c, s);
  }

  /** After uncursing it has what it had, less what was asked for, with or without force. */
  lemma UncursedExactly(net: Network, state: Curses, cfg: Config, g: Grouped, state': Curses, c: ChainSelector,
                        s: Subject)
    requires NoClash(net) && IsGrouping(net, cfg.actions, g) && Uncursed(state, g, state')
    ensures s in CursedOn(state', c) <==> s in CursedOn(state, c) && !Asked(net, cfg.actions, c, s)
  {
    AskedIsGrouped(net, cfg.actions, g, c, s);
  }
}
