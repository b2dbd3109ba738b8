/**
 * The page-level tracker (`UnlockedServiceState`) that tells the todo page
 * whether the "has an unlocked account" flag changed since it last looked.
 */
module UnlockedStates {
  datatype State = Unknown | NoUnlocked | HasUnlocked

  /** `UpdateState`: the state that records an observed flag. */
  function Observed(hasUnlockedAccount: bool): (s: State)
    ensures s != Unknown
    ensures s == HasUnlocked <==> hasUnlockedAccount
  {
    if hasUnlockedAccount then HasUnlocked else NoUnlocked
  }

  /**
   * One `HasNewState` call from state `s` observing the flag: the new state
   * and whether the call reports a change.
   */
  function Step(s: State, hasUnlockedAccount: bool): (r: (State, bool))
    ensures r.0 == Observed(hasUnlockedAccount)
    ensures r.1 <==> s == Unknown || (s == HasUnlocked) != hasUnlockedAccount
  {
    if s == Unknown then (Observed(hasUnlockedAccount), true)
    else if s == NoUnlocked && hasUnlockedAccount then (Observed(hasUnlockedAccount), true)
    else if s == HasUnlocked && !hasUnlockedAccount then (Observed(hasUnlockedAccount), true)
    else (s, false)
  }

  /** The state after a series of calls observing `flags`, and what each call reported. */
  function Replay(s: State, flags: seq<bool>): (r: (State, seq<bool>))
    ensures |r.1| == |flags|
    ensures flags == [] ==> r.0 == s
    ensures flags != [] ==> r.0 == Observed(flags[|flags| - 1])
    decreases |flags|
  {
    if flags == [] then (s, [])
    else
      var (s1, c) := Step(s, flags[0]);
      var (s2, cs) := Replay(s1, flags[1..]);
      (s2, [c] + cs)
  }

  /** The first call, from `Unknown`, always reports a change. */
  lemma FirstCallReports(hasUnlockedAccount: bool)
    ensures Step(Unknown, hasUnlockedAccount).1
  {
  }

  /** A second call observing the same flag as the one before it reports nothing. */
  lemma RepeatedCallIsQuiet(s: State, hasUnlockedAccount: bool)
    ensures !Step(Step(s, hasUnlockedAccount).0, hasUnlockedAccount).1
  {
  }

  /**
   * From a known state, a call reports a change exactly when its flag differs
   * from the one observed before it.
   */
  lemma {:induction false} KnownReplayReportsEdges(s: State, flags: seq<bool>)
    requires s != Unknown
    ensures forall i :: 0 <= i < |flags| ==>
      Replay(s, flags).1[i] == (flags[i] != (if i == 0 then s == HasUnlocked else flags[i - 1]))
    decreases |flags|
  {
    if flags != [] {
      var (s1, c) := Step(s, flags[0]);
      var cs := Replay(s1, flags[1..]).1;
      KnownReplayReportsEdges(s1, flags[1..]);
      assert Replay(s, flags).1 == [c] + cs;
      forall i | 0 <= i < |flags|
        ensures Replay(s, flags).1[i] == (flags[i] != (if i == 0 then s == HasUnlocked else flags[i - 1]))
      {
        if i > 0 {
          assert Replay(s, flags).1[i] == cs[i - 1];
          assert flags[1..][i - 1] == flags[i];
          if i > 1 {
            assert flags[1..][i - 2] == flags[i - 1];
          }
        }
      }
    }
  }

  /**
   * From the initial state: the first call reports a change, every later
   * call reports one exactly when its flag differs from the previous call's,
   * and the state ends up recording the last flag (never `Unknown` again).
   */
  lemma ReplayReportsEdges(flags: seq<bool>)
    requires flags != []
    ensures Replay(Unknown, flags).1[0]
    ensures forall i :: 0 < i < |flags| ==> Replay(Unknown, flags).1[i] == (flags[i] != flags[i - 1])
    ensures Replay(Unknown, flags).0 != Unknown
    ensures Replay(Unknown, flags).0 == HasUnlocked <==> flags[|flags| - 1]
  {
    var s1 := Step(Unknown, flags[0]).0;
    var cs := Replay(s1, flags[1..]).1;
    KnownReplayReportsEdges(s1, flags[1..]);
    assert Replay(Unknown, flags).1 == [true] + cs;
    forall i | 0 < i < |flags| ensures Replay(Unknown, flags).1[i] == (flags[i] != flags[i - 1]) {
      assert Replay(Unknown, flags).1[i] == cs[i - 1];
      assert flags[1..][i - 1] == flags[i];
      if i > 1 {
        assert flags[1..][i - 2] == flags[i - 1];
      }
    }
  }

  class UnlockedServiceState {
    var state: State

    constructor()
      ensures state == Unknown
    {
      state := Unknown;
    }

    /** `HasUnlockedState`. */
    function HasUnlockedState(): (b: bool)
      reads this
      ensures b <==> state == HasUnlocked
    {
      state == HasUnlocked
    }

    method UpdateState(hasUnlockedAccount: bool)
      modifies this
      ensures state == Observed(hasUnlockedAccount)
    {
      if hasUnlockedAccount {
        state := HasUnlocked;
      } else {
        state := NoUnlocked;
      }
    }

    /**
     * `HasNewState`, given the current value of the service node manager's
     * "had an unlocked service node" flag.
     */
    method HasNewState(hasUnlockedAccount: bool) returns (changed: bool)
      modifies this
      ensures (state, changed) == Step(old(state), hasUnlockedAccount)
      ensures state != Unknown
      ensures HasUnlockedState() == hasUnlockedAccount
    {
      if state == Unknown {
        UpdateState(hasUnlockedAccount);
        return true;
      }
      if state == NoUnlocked && hasUnlockedAccount {
        UpdateState(hasUnlockedAccount);
        return true;
      }
      if state == HasUnlocked && !hasUnlockedAccount {
        UpdateState(hasUnlockedAccount);
        return true;
      }
      return false;
    }
  }
}
