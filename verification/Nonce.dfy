/** How nonces are given to outbound packets: by concurrent senders, and by one sender with its staged queue. */
module Nonce {
  import opened Bytes
  import opened Sequences

  const REJECT_AFTER_MESSAGES: nat := TWO64 - 0x2000 - 1
  const MAX_PENDING: nat := 0x2000

  // ----- concurrent senders

  /**
    The counter of one keypair, and how many senders have drawn a number at or above the limit
    and not yet put the counter back.
   */
  datatype Counter = Counter(next: Uint64, pending: nat)

  datatype Assigned = Assigned(keypair: nat, nonce: nat)

  datatype State = State(counters: map<nat, Counter>, given: seq<Assigned>)

  /**
    One atomic access to a counter: sendNonce.Add(1), Store by a sender that drew too high, Store on expiry;
    or a new keypair.
   */
  datatype Step = Create(keypair: nat) | Add(keypair: nat) | PutBack(keypair: nat) | Expire(keypair: nat)

  predicate Enabled(s: State, step: Step) {
    match step
    case Create(k) => k !in s.counters
    case Add(k) => k in s.counters
    case PutBack(k) => k in s.counters && s.counters[k].pending > 0
    case Expire(k) => k in s.counters
  }

  function Next(s: State, step: Step): State
    requires Enabled(s, step)
  {
    match step
    case Create(k) => s.(counters := s.counters[k := Counter(0, 0)])
    case Add(k) =>
      var c := s.counters[k];
      var nonce := c.next;
      var next := if c.next == TWO64 - 1 then 0 else c.next + 1;
      if nonce >= REJECT_AFTER_MESSAGES then s.(counters := s.counters[k := Counter(next, c.pending + 1)])
      else State(s.counters[k := Counter(next, c.pending)], s.given + [Assigned(k, nonce)])
    case PutBack(k) => s.(counters := s.counters[k := Counter(REJECT_AFTER_MESSAGES, s.counters[k].pending - 1)])
    case Expire(k) => s.(counters := s.counters[k := s.counters[k].(next := REJECT_AFTER_MESSAGES)])
  }

  const START := State(map[], [])

  /** The states of a run of enabled steps, in which no keypair ever has more than `bound` senders pending. */
  ghost predicate IsRun(states: seq<State>, steps: seq<Step>, bound: nat) {
    && |states| == |steps| + 1 && states[0] == START
    && (forall i :: 0 <= i < |steps| ==> Enabled(states[i], steps[i]) && states[i + 1] == Next(states[i], steps[i]))
    && forall i :: 0 <= i < |states| ==> Bounded(states[i], bound)
  }

  ghost predicate Bounded(s: State, bound: nat) {
    forall k {:trigger s.counters[k]} :: k in s.counters ==> s.counters[k].pending <= bound
  }

  /** The counter is at most as far past the limit as there are senders pending; numbers given are below it. */
  ghost predicate Safe(s: State) {
    && (forall k {:trigger s.counters[k]} :: k in s.counters ==>
          s.counters[k].next <= REJECT_AFTER_MESSAGES + s.counters[k].pending)
    && (forall i {:trigger s.given[i]} :: 0 <= i < |s.given| ==>
          && s.given[i].keypair in s.counters
          && s.given[i].nonce < REJECT_AFTER_MESSAGES
          && s.given[i].nonce < s.counters[s.given[i].keypair].next)
    && (forall i, j :: 0 <= i < j < |s.given| ==> s.given[i] != s.given[j])
  }

  lemma StepKeepsSafe(s: State, step: Step)
    requires Safe(s) && Enabled(s, step) && Bounded(Next(s, step), MAX_PENDING)
    ensures Safe(Next(s, step))
  {
    var s' := Next(s, step);
    if step.Add? {
      var k := step.keypair;
      assert s'.counters[k].pending <= MAX_PENDING;
      assert s.counters[k].next <= REJECT_AFTER_MESSAGES + s.counters[k].pending;
      if s.counters[k].next < REJECT_AFTER_MESSAGES {
        assert forall i :: 0 <= i < |s.given| ==> s.given[i] != Assigned(k, s.counters[k].next);
      }
    }
  }

  /** In every run with at most 2^13 senders between drawing and putting back, no (keypair, nonce) is given twice. */
  lemma {:induction false} RunIsSafe(states: seq<State>, steps: seq<Step>, i: nat)
    requires IsRun(states, steps, MAX_PENDING) && i < |states|
    ensures Safe(states[i])
  {
    if i > 0 {
      RunIsSafe(states, steps, i - 1);
      assert states[i] == Next(states[i - 1], steps[i - 1]);
      StepKeepsSafe(states[i - 1], steps[i - 1]);
    }
  }

  lemma NoncesAreUnique(states: seq<State>, steps: seq<Step>, i: nat)
    requires IsRun(states, steps, MAX_PENDING) && i < |states|
    ensures forall a, b :: 0 <= a < b < |states[i].given| ==> states[i].given[a] != states[i].given[b]
    ensures forall a :: 0 <= a < |states[i].given| ==> states[i].given[a].nonce < REJECT_AFTER_MESSAGES
  {
    RunIsSafe(states, steps, i);
  }

  // ----- the bound is tight

  /** One number is given, the keypair expires, and then n senders draw without putting back. */
  function Reckless(n: nat): seq<Step> {
    if n == 0 then [Create(0), Add(0), Expire(0)] else Reckless(n - 1) + [Add(0)]
  }

  function RecklessState(n: nat): State
    requires n <= MAX_PENDING + 1
  {
    State(map[0 := Counter(if n == MAX_PENDING + 1 then 0 else REJECT_AFTER_MESSAGES + n, n)], [Assigned(0, 0)])
  }

  function RecklessStates(n: nat): seq<State>
    requires n <= MAX_PENDING + 1
  {
    if n == 0 then [START, State(map[0 := Counter(0, 0)], []), State(map[0 := Counter(1, 0)], [Assigned(0, 0)]),
                    RecklessState(0)]
    else RecklessStates(n - 1) + [RecklessState(n)]
  }

  lemma OneMoreStep(states: seq<State>, steps: seq<Step>, step: Step, bound: nat)
    requires IsRun(states, steps, bound)
    requires Enabled(states[|steps|], step) && Bounded(Next(states[|steps|], step), bound)
    ensures IsRun(states + [Next(states[|steps|], step)], steps + [step], bound)
  {
    hide Next, Enabled, Bounded;
    var states', steps' := states + [Next(states[|steps|], step)], steps + [step];
    forall i | 0 <= i < |steps'|
      ensures Enabled(states'[i], steps'[i]) && states'[i + 1] == Next(states'[i], steps'[i])
    {
      if i < |steps| { assert steps'[i] == steps[i] && states'[i] == states[i] && states'[i + 1] == states[i + 1]; }
    }
  }

  lemma {:induction false} RecklessRuns(n: nat)
    requires n <= MAX_PENDING + 1
    ensures IsRun(RecklessStates(n), Reckless(n), MAX_PENDING + 1)
    ensures RecklessStates(n)[|Reckless(n)|] == RecklessState(n)
  {
    if n == 0 {
      assert State(map[0 := Counter(0, 0)], []) == Next(START, Create(0));
      assert RecklessState(0).counters == Next(State(map[0 := Counter(1, 0)], [Assigned(0, 0)]), Expire(0)).counters;
    } else {
      RecklessRuns(n - 1);
      assert RecklessState(n) == Next(RecklessState(n - 1), Add(0)) by {
        assert RecklessState(n).counters == Next(RecklessState(n - 1), Add(0)).counters;
      }
      OneMoreStep(RecklessStates(n - 1), Reckless(n - 1), Add(0), MAX_PENDING + 1);
    }
  }

  /** One pending sender more than 2^13, and the counter wraps: the next number given is one that was given before. */
  lemma OneMoreRepeats()
    ensures var states, steps := RecklessStates(MAX_PENDING + 1), Reckless(MAX_PENDING + 1);
            && IsRun(states, steps, MAX_PENDING + 1)
            && var last := states[|steps|];
            Enabled(last, Add(0)) && Next(last, Add(0)).given == [Assigned(0, 0), Assigned(0, 0)]
  {
    RecklessRuns(MAX_PENDING + 1);
  }

  /** No run in which no keypair has more than `bound` senders pending gives a number twice. */
  ghost predicate FreeOfRepeats(bound: nat) {
    forall states: seq<State>, steps: seq<Step> :: IsRun(states, steps, bound) ==> Distinct(states[|steps|].given)
  }

  lemma MoreRunsWithMore(states: seq<State>, steps: seq<Step>, lower: nat, higher: nat)
    requires IsRun(states, steps, lower) && lower <= higher
    ensures IsRun(states, steps, higher)
  {}

  /** The reckless senders, and one more number drawn after them. */
  lemma RepeatingRun(bound: nat)
    requires bound > MAX_PENDING
    ensures !FreeOfRepeats(bound)
  {
    OneMoreRepeats();
    var states, steps := RecklessStates(MAX_PENDING + 1), Reckless(MAX_PENDING + 1);
    var last := Next(states[|steps|], Add(0));
    assert Bounded(last, MAX_PENDING + 1);
    OneMoreStep(states, steps, Add(0), MAX_PENDING + 1);
    MoreRunsWithMore(states + [last], steps + [Add(0)], MAX_PENDING + 1, bound);
    RepeatFound(states + [last], steps + [Add(0)], bound);
  }

  lemma RepeatFound(states: seq<State>, steps: seq<Step>, bound: nat)
    requires IsRun(states, steps, bound) && |states[|steps|].given| == 2
    requires states[|steps|].given[0] == states[|steps|].given[1]
    ensures !FreeOfRepeats(bound)
  {
    assert !Distinct(states[|steps|].given);
  }

  /** The reserve of 2^13 numbers above the limit is exactly what keeps nonces from repeating. */
  lemma UniqueIff(bound: nat)
    ensures FreeOfRepeats(bound) <==> bound <= MAX_PENDING
  {
    if bound <= MAX_PENDING {
      forall states: seq<State>, steps: seq<Step> | IsRun(states, steps, bound)
        ensures Distinct(states[|steps|].given)
      {
        MoreRunsWithMore(states, steps, bound, MAX_PENDING);
        NoncesAreUnique(states, steps, |steps|);
      }
    } else {
      RepeatingRun(bound);
    }
  }
}
