/** Repeating a step while it asks to be repeated: the shape of the loop in
    `connect()`, for any kind of state. */
module Follow {

  /** The states at which step number `hop`, `hop + 1`, ... are about to be taken; after
      each of them the loop goes on. */
  ghost predicate Chain<S(!new)>(step: (S, nat) -> S, goesOn: S -> bool, states: seq<S>, hop: nat) {
    && states != []
    && (forall i :: 0 <= i < |states| ==> goesOn(states[i]))
    && (forall i, j :: 0 <= i && j == i + 1 < |states| ==> states[j] == step(states[i], hop + i))
  }

  /** The loop passes `states` and ends in `final`. */
  ghost predicate Ends<S(!new)>(step: (S, nat) -> S, goesOn: S -> bool, states: seq<S>, hop: nat, final: S) {
    && Chain(step, goesOn, states, hop)
    && final == step(states[|states| - 1], hop + |states| - 1)
    && !goesOn(final)
  }

  lemma ChainGrows<S(!new)>(step: (S, nat) -> S, goesOn: S -> bool, states: seq<S>, hop: nat, next: S)
    requires Chain(step, goesOn, states, hop)
    requires next == step(states[|states| - 1], hop + |states| - 1) && goesOn(next)
    ensures Chain(step, goesOn, states + [next], hop)
  {
  }

  lemma {:induction false} ChainsAgree<S(!new)>(step: (S, nat) -> S, goesOn: S -> bool, a: seq<S>, b: seq<S>, hop: nat, n: nat)
    requires Chain(step, goesOn, a, hop) && Chain(step, goesOn, b, hop)
    requires a[0] == b[0] && n < |a| && n < |b|
    ensures a[n] == b[n]
  {
    if n > 0 {
      ChainsAgree(step, goesOn, a, b, hop, n - 1);
      assert a[n] == step(a[n - 1], hop + n - 1);
    }
  }

  lemma StepGoesOn<S(!new)>(step: (S, nat) -> S, goesOn: S -> bool, states: seq<S>, hop: nat, i: nat)
    requires Chain(step, goesOn, states, hop) && i + 1 < |states|
    ensures goesOn(step(states[i], hop + i))
  {
    assert states[i + 1] == step(states[i], hop + i);
  }

  /** A chain that starts like a finished loop is no longer than it. */
  lemma NoLonger<S(!new)>(step: (S, nat) -> S, goesOn: S -> bool, a: seq<S>, b: seq<S>, hop: nat, final: S)
    requires Ends(step, goesOn, a, hop, final) && Chain(step, goesOn, b, hop) && a[0] == b[0]
    ensures |b| <= |a|
  {
    if |a| < |b| {
      ChainsAgree(step, goesOn, a, b, hop, |a| - 1);
      StepGoesOn(step, goesOn, b, hop, |a| - 1);
      assert false;
    }
  }

  /** The first state decides the whole loop. */
  lemma EndsOnce<S(!new)>(step: (S, nat) -> S, goesOn: S -> bool, a: seq<S>, b: seq<S>, hop: nat, final: S, other: S)
    requires Ends(step, goesOn, a, hop, final) && Ends(step, goesOn, b, hop, other) && a[0] == b[0]
    ensures a == b && final == other
  {
    NoLonger(step, goesOn, a, b, hop, final);
    NoLonger(step, goesOn, b, a, hop, other);
    forall i | 0 <= i < |a| ensures a[i] == b[i] {
      ChainsAgree(step, goesOn, a, b, hop, i);
    }
  }

  /** A loop whose first step ends it. */
  lemma EndsAtOnce<S(!new)>(step: (S, nat) -> S, goesOn: S -> bool, states: seq<S>, hop: nat, final: S)
    requires Ends(step, goesOn, states, hop, final) && !goesOn(step(states[0], hop))
    ensures |states| == 1 && final == step(states[0], hop)
  {
    if |states| > 1 {
      StepGoesOn(step, goesOn, states, hop, 0);
      assert false;
    }
  }

  lemma EndsAfterTwo<S(!new)>(step: (S, nat) -> S, goesOn: S -> bool, a: S, b: S, final: S, hop: nat)
    requires goesOn(a) && b == step(a, hop) && goesOn(b)
    requires final == step(b, hop + 1) && !goesOn(final)
    ensures Ends(step, goesOn, [a, b], hop, final)
  {
  }

  /** The least `k` below `n` for which `p(from + k)` holds, or `n`. */
  function FirstOf(p: nat -> bool, from: nat, n: nat): (k: nat)
    ensures k <= n
    ensures forall i: nat :: from <= i < from + k ==> !p(i)
    ensures k < n ==> p(from + k)
  {
    if n == 0 then 0
    else
      var k := FirstOf(p, from, n - 1);
      if k < n - 1 || p(from + k) then k else n
  }

  lemma FirstOfNext(p: nat -> bool, from: nat, n: nat)
    ensures FirstOf(p, from, n + 1) ==
            if FirstOf(p, from, n) < n || p(from + n) then FirstOf(p, from, n) else n + 1
  {
  }
}
