/** The quotas of a generation and the rotation through its sources. */
module GenerationQuotas {
  import opened Basics

  datatype Limits = Limits(target: int, maxActive: int, maxSimultaneous: int)

  datatype Counters = Counters(generated: int, active: int)

  /** What a grant may hand out at most: what is left to generate, to activate, and to start at a time. */
  function Allowance(l: Limits, c: Counters): int {
    Min(Min(l.maxActive - c.active, l.target - c.generated), l.maxSimultaneous)
  }

  /** A grant is refused when the target is met or enough inputs are active. */
  predicate Refused(l: Limits, c: Counters) {
    c.generated >= l.target || c.active >= l.maxActive
  }

  datatype Event = Grant | Fail(count: nat) | Complete | Remove(known: bool) | Reset

  function Step(l: Limits, c: Counters, e: Event): Counters {
    match e
    case Grant => if Refused(l, c) then c else Counters(c.generated + Allowance(l, c), c.active + Allowance(l, c))
    case Fail(n) => Counters(c.generated - n, Max(c.active - n, 0))
    case Complete => c.(active := Max(c.active - 1, 0))
    case Remove(known) => if known then c.(generated := c.generated - 1) else c
    case Reset => c.(active := 0)
  }

  function Run(l: Limits, c: Counters, events: seq<Event>): Counters {
    if events == [] then c else Step(l, Run(l, c, events[..|events| - 1]), events[|events| - 1])
  }

  // The plain sums over a run

  function Granted(l: Limits, c: Counters, events: seq<Event>): int {
    if events == [] then 0
    else
      var before, e := events[..|events| - 1], events[|events| - 1];
      var s := Run(l, c, before);
      Granted(l, c, before) + if e.Grant? && !Refused(l, s) then Allowance(l, s) else 0
  }

  function FailedCount(events: seq<Event>): nat {
    if events == [] then 0
    else FailedCount(events[..|events| - 1]) + if events[|events| - 1].Fail? then events[|events| - 1].count else 0
  }

  function RemovedCount(events: seq<Event>): nat {
    if events == [] then 0
    else RemovedCount(events[..|events| - 1]) + if events[|events| - 1] == Remove(true) then 1 else 0
  }

  const START := Counters(0, 0)

  /** In every state of every run the quotas hold, and the generated size is grants minus fails minus removals. */
  lemma {:induction false} QuotasHold(l: Limits, events: seq<Event>)
    requires l.target >= 0 && l.maxActive >= 0
    ensures var c := Run(l, START, events);
            && c.active <= l.maxActive && c.generated <= l.target && (l.maxSimultaneous >= 0 ==> 0 <= c.active)
            && c.generated == Granted(l, START, events) - FailedCount(events) - RemovedCount(events)
  {
    if events != [] {
      QuotasHold(l, events[..|events| - 1]);
    }
  }

  /** In a run a grant is refused exactly if the target or the active limit is reached. One that is not refused
      counts as generated and as active alike and cannot be larger: one more input would exceed one of the three
      limits. */
  lemma GrantIsLargest(l: Limits, events: seq<Event>)
    requires l.target >= 0 && l.maxActive >= 0
    ensures var c, c' := Run(l, START, events), Run(l, START, events + [Grant]);
            if c.generated == l.target || c.active == l.maxActive then c' == c
            else
              var num := c'.active - c.active;
              && c'.generated - c.generated == num <= l.maxSimultaneous
              && c'.active <= l.maxActive && c'.generated <= l.target
              && (num == l.maxSimultaneous || c'.active == l.maxActive || c'.generated == l.target)
  {
    QuotasHold(l, events);
    assert (events + [Grant])[..|events|] == events;
  }

  function CompletedCount(events: seq<Event>): nat {
    if events == [] then 0
    else CompletedCount(events[..|events| - 1]) + if events[|events| - 1].Complete? then 1 else 0
  }

  /** What was granted less what ended, by failing or completing, from event `k` on. */
  function Surplus(l: Limits, events: seq<Event>, k: nat): int
    requires k <= |events|
  {
    Granted(l, START, events) - FailedCount(events) - CompletedCount(events)
    - (Granted(l, START, events[..k]) - FailedCount(events[..k]) - CompletedCount(events[..k]))
  }

  ghost predicate NoResetFrom(events: seq<Event>, k: nat) {
    k <= |events| && forall m :: k <= m < |events| ==> !events[m].Reset?
  }

  /** What the last event changes in the sums. */
  function Change(l: Limits, before: seq<Event>, e: Event): int {
    var c := Run(l, START, before);
    match e
    case Grant => if Refused(l, c) then 0 else Allowance(l, c)
    case Fail(n) => 0 - n
    case Complete => -1
    case Remove(_) => 0
    case Reset => 0
  }

  lemma SurplusGrows(l: Limits, events: seq<Event>, m: nat)
    requires m < |events|
    ensures var before, e := events[..|events| - 1], events[|events| - 1];
            Surplus(l, events, m) == Surplus(l, before, m) + Change(l, before, e)
  {
    hide Run, Refused, Allowance;
    assert events[..|events| - 1][..m] == events[..m];
  }

  lemma NoSurplus(l: Limits, events: seq<Event>)
    ensures Surplus(l, events, |events|) == 0
  {
    assert events[..|events|] == events;
  }

  lemma ActiveAfter(l: Limits, events: seq<Event>)
    requires l.target >= 0 && l.maxActive >= 0 && l.maxSimultaneous >= 0 && events != []
    ensures var before, e := events[..|events| - 1], events[|events| - 1];
            Run(l, START, events).active
            == if e.Reset? then 0 else Max(Run(l, START, before).active + Change(l, before, e), 0)
  {
    QuotasHold(l, events[..|events| - 1]);
  }

  /** After any run, whatever ends how often, the active count is the largest surplus of any stretch that lasts
      until now and holds no reset. The empty stretch is one of them. */
  lemma {:induction false} ActiveIsLargestSurplus(l: Limits, events: seq<Event>) returns (k: nat)
    requires l.target >= 0 && l.maxActive >= 0 && l.maxSimultaneous >= 0
    ensures NoResetFrom(events, k) && Run(l, START, events).active == Surplus(l, events, k)
    ensures forall m: nat :: NoResetFrom(events, m) ==> Surplus(l, events, m) <= Run(l, START, events).active
  {
    hide Surplus, Change;
    k := |events|;
    NoSurplus(l, events);
    if events != [] {
      hide Run;
      var last := |events| - 1;
      var before, e := events[..last], events[last];
      ActiveAfter(l, events);
      var n := ActiveIsLargestSurplus(l, before);
      SurplusGrows(l, events, n);
      if !e.Reset? && Surplus(l, events, n) >= 0 {
        k := n;
      }
      forall m: nat | NoResetFrom(events, m) ensures Surplus(l, events, m) <= Run(l, START, events).active {
        if m <= last {
          assert NoResetFrom(before, m);
          SurplusGrows(l, events, m);
        }
      }
    }
  }

  /** A generation is over exactly when no stretch since the last reset has a surplus and the target is met. */
  lemma EndsIff(l: Limits, events: seq<Event>)
    requires l.target >= 0 && l.maxActive >= 0 && l.maxSimultaneous >= 0
    ensures var c := Run(l, START, events);
            (c.active == 0 && c.generated >= l.target)
            <==> ((forall k: nat :: NoResetFrom(events, k) ==> Surplus(l, events, k) <= 0)
                  && Granted(l, START, events) - FailedCount(events) - RemovedCount(events) == l.target)
  {
    QuotasHold(l, events);
    var k := ActiveIsLargestSurplus(l, events);
  }

  /** The inputs that were granted since the last reset and have neither failed nor completed. */
  function Outstanding(l: Limits, events: seq<Event>): int {
    if events == [] then 0
    else
      var before, e := events[..|events| - 1], events[|events| - 1];
      var c := Run(l, START, before);
      match e
      case Grant => Outstanding(l, before) + if Refused(l, c) then 0 else Allowance(l, c)
      case Fail(n) => Outstanding(l, before) - n
      case Complete => Outstanding(l, before) - 1
      case Remove(_) => Outstanding(l, before)
      case Reset => 0
  }

  /** No input ends twice: never do more inputs end than are outstanding. */
  ghost predicate Disciplined(l: Limits, events: seq<Event>) {
    forall k :: 0 <= k <= |events| ==> Outstanding(l, events[..k]) >= 0
  }

  /** If no more inputs end than are outstanding, the number of active inputs is exact: the repair of
      negative values never happens. */
  lemma {:induction false} ActiveIsExact(l: Limits, events: seq<Event>)
    requires Disciplined(l, events)
    ensures Run(l, START, events).active == Outstanding(l, events) >= 0
  {
    assert events[..|events|] == events;
    if events != [] {
      var before := events[..|events| - 1];
      forall k | 0 <= k <= |before| ensures before[..k] == events[..k] {}
      assert Disciplined(l, before);
      ActiveIsExact(l, before);
    }
  }

  /** A generation is over exactly when nothing is outstanding and the target is met. */
  lemma EndsWhenDone(l: Limits, events: seq<Event>)
    requires l.target >= 0 && l.maxActive >= 0 && Disciplined(l, events)
    ensures var c := Run(l, START, events);
            (c.active == 0 && c.generated >= l.target)
            <==> (Outstanding(l, events) == 0
                  && Granted(l, START, events) - FailedCount(events) - RemovedCount(events) == l.target)
  {
    QuotasHold(l, events);
    ActiveIsExact(l, events);
  }

  // ---------------------------------------------------------------------------------------------
  // The same counters in single memory accesses. A grant reads and then adds, a completion decrements
  // and then looks for a negative value; grants, fails and removals exclude each other, completions and
  // resets do not. A test that is repeated completes again without a new grant, so more may complete than
  // was granted.

  /** What the holder of the lock is in the middle of. */
  datatype Locked = Idle | Granting(num: int) | Releasing(sawNegative: bool)

  /** `looking` completions have decremented, `clamping` ones have then seen a negative value. */
  datatype Shared = Shared(generated: int, active: int, lock: Locked, looking: nat, clamping: nat, outstanding: int)

  datatype Access =
    | ReadForGrant | AddGrant | SubtractRemoved | SubtractFails(count: nat) | LookAfterFail | ClampAfterFail
                  | Decrement | Look | Clamp | ResetActive

  predicate Enabled(s: Shared, a: Access) {
    match a
    case ReadForGrant => s.lock.Idle?
    case AddGrant => s.lock.Granting?
    case SubtractFails(n) => s.lock.Idle?
    case SubtractRemoved => s.lock.Idle?
    case LookAfterFail => s.lock == Releasing(false)
    case ClampAfterFail => s.lock == Releasing(true)
    case Decrement => true
    case Look => s.looking > 0
    case Clamp => s.clamping > 0
    case ResetActive => true
  }

  function Do(l: Limits, s: Shared, a: Access): Shared
    requires Enabled(s, a)
  {
    match a
    case ReadForGrant =>
      var c := Counters(s.generated, s.active);
      if Refused(l, c) then s else s.(lock := Granting(Allowance(l, c)))
    case AddGrant =>
      s.(active := s.active + s.lock.num, generated := s.generated + s.lock.num,
         outstanding := s.outstanding + s.lock.num, lock := Idle)
    case SubtractRemoved => s.(generated := s.generated - 1)
    case SubtractFails(n) => s.(generated := s.generated - n, active := s.active - n, outstanding := s.outstanding - n,
                                lock := Releasing(false))
    case LookAfterFail => s.(lock := if s.active < 0 then Releasing(true) else Idle)
    case ClampAfterFail => s.(active := 0, lock := Idle)
    case Decrement => s.(active := s.active - 1, looking := s.looking + 1, outstanding := s.outstanding - 1)
    case Look => s.(looking := s.looking - 1, clamping := if s.active < 0 then s.clamping + 1 else s.clamping)
    case Clamp => s.(active := 0, clamping := s.clamping - 1)
    case ResetActive => s.(active := 0, outstanding := 0)
  }

  const SHARED_START := Shared(0, 0, Idle, 0, 0, 0)

  /** The states that some interleaving of accesses goes through. */
  ghost predicate Trace(l: Limits, states: seq<Shared>, accesses: seq<Access>) {
    && |states| == |accesses| + 1 && states[0] == SHARED_START
    && forall k :: 0 <= k < |accesses| ==>
         && Enabled(states[k], accesses[k])
         && states[k + 1] == Do(l, states[k], accesses[k])
  }

  /** Under every interleaving the generated size stays within the target. */
  lemma {:induction false} TargetHoldsInterleaved(l: Limits, states: seq<Shared>, accesses: seq<Access>, k: nat)
    requires l.target >= 0 && Trace(l, states, accesses) && k < |states|
    ensures states[k].generated <= l.target
    ensures states[k].lock.Granting? ==> states[k].generated + states[k].lock.num <= l.target
  {
    if k > 0 {
      TargetHoldsInterleaved(l, states, accesses, k - 1);
      assert Enabled(states[k - 1], accesses[k - 1]);
    }
  }

  /** Nothing that was not generated is taken back. */
  ghost predicate NeverBelowZero(states: seq<Shared>) {
    forall k :: 0 <= k < |states| ==> states[k].generated >= 0
  }

  /** A single grant is within the active limit, whatever the active count is. */
  ghost predicate GrantsFit(l: Limits, states: seq<Shared>) {
    l.maxSimultaneous <= l.maxActive || (l.target <= l.maxActive && NeverBelowZero(states))
  }

  /** If every single grant fits, the active limit holds under every interleaving, however many inputs complete. */
  lemma {:induction false} ActiveHoldsInterleaved(l: Limits, states: seq<Shared>, accesses: seq<Access>, k: nat)
    requires l.maxActive >= 0 && GrantsFit(l, states) && Trace(l, states, accesses) && k < |states|
    ensures states[k].active <= l.maxActive
    ensures states[k].lock.Granting? ==> Max(states[k].active, 0) + states[k].lock.num <= l.maxActive
  {
    if k > 0 {
      ActiveHoldsInterleaved(l, states, accesses, k - 1);
      assert Enabled(states[k - 1], accesses[k - 1]);
      assert l.maxSimultaneous > l.maxActive ==> states[k - 1].generated >= 0;
    }
  }

  ghost predicate StaysWithin(l: Limits, states: seq<Shared>) {
    forall k :: 0 <= k < |states| ==> states[k].active <= l.maxActive
  }

  /** Which limits keep the active count within its limit under every interleaving: those whose simultaneous
      limit is not above it. */
  lemma ActiveLimitIff(l: Limits)
    requires l.target >= 0 && l.maxActive >= 0
    ensures (forall states: seq<Shared>, accesses: seq<Access> :: Trace(l, states, accesses) ==> StaysWithin(l, states))
            <==> l.maxSimultaneous <= l.maxActive
  {
    if l.maxSimultaneous <= l.maxActive {
      forall states: seq<Shared>, accesses: seq<Access> | Trace(l, states, accesses) ensures StaysWithin(l, states) {
        forall k | 0 <= k < |states| ensures states[k].active <= l.maxActive {
          ActiveHoldsInterleaved(l, states, accesses, k);
        }
      }
    } else {
      var states, accesses := TooManyTakenBack(l);
      assert states[|states| - 1].active > l.maxActive;
    }
  }

  /** The same if nothing is taken back that was not generated: then a target within the limit is as good. */
  lemma ActiveLimitIffGenerated(l: Limits)
    requires l.target >= 0 && l.maxActive >= 0
    ensures (forall states: seq<Shared>, accesses: seq<Access> ::
               Trace(l, states, accesses) && NeverBelowZero(states) ==> StaysWithin(l, states))
            <==> l.maxSimultaneous <= l.maxActive || l.target <= l.maxActive
  {
    if l.maxSimultaneous <= l.maxActive || l.target <= l.maxActive {
      forall states: seq<Shared>, accesses: seq<Access> | Trace(l, states, accesses) && NeverBelowZero(states)
        ensures StaysWithin(l, states)
      {
        forall k | 0 <= k < |states| ensures states[k].active <= l.maxActive {
          ActiveHoldsInterleaved(l, states, accesses, k);
        }
      }
    } else {
      var states, accesses := OneCompletionTooMany(l);
      assert states[|states| - 1].active > l.maxActive;
    }
  }

  /** A completion too many makes the count negative, a grant reads the negative count, and the repair
      happens before the grant adds. This exceeds the limit whenever one grant can. */
  lemma OneCompletionTooMany(l: Limits) returns (states: seq<Shared>, accesses: seq<Access>)
    requires 0 <= l.maxActive < l.target && l.maxActive < l.maxSimultaneous
    ensures Trace(l, states, accesses) && NeverBelowZero(states) && states[|states| - 1].active == l.maxActive + 1
  {
    states, accesses := BetweenReadAndAdd(l, [SHARED_START], []);
  }

  /** Taking back more than was generated leaves room for such a grant even if the target is small. */
  lemma TooManyTakenBack(l: Limits) returns (states: seq<Shared>, accesses: seq<Access>)
    requires 0 <= l.maxActive < l.maxSimultaneous && l.target >= 0
    ensures Trace(l, states, accesses) && states[|states| - 1].active == l.maxActive + 1
  {
    states, accesses := Extended(l, [SHARED_START], [], SubtractFails(l.maxActive + 1));
    states, accesses := Extended(l, states, accesses, LookAfterFail);
    states, accesses := Extended(l, states, accesses, ClampAfterFail);
    states, accesses := BetweenReadAndAdd(l, states, accesses);
  }

  /** The five accesses, from a state with nothing active and room for the grant. */
  lemma BetweenReadAndAdd(l: Limits, states: seq<Shared>, accesses: seq<Access>)
    returns (states': seq<Shared>, accesses': seq<Access>)
    requires Trace(l, states, accesses) && 0 <= l.maxActive < l.maxSimultaneous
    requires var s := states[|states| - 1];
             s.active == 0 && s.lock.Idle? && s.looking == s.clamping == 0 && l.maxActive < l.target - s.generated
    ensures Trace(l, states', accesses') && states'[|states'| - 1].active == l.maxActive + 1
    ensures NeverBelowZero(states) ==> NeverBelowZero(states')
  {
    hide NeverBelowZero;
    states', accesses' := Extended(l, states, accesses, Decrement);
    states', accesses' := Extended(l, states', accesses', ReadForGrant);
    assert states'[|states'| - 1].lock == Granting(l.maxActive + 1);
    states', accesses' := Extended(l, states', accesses', Look);
    states', accesses' := Extended(l, states', accesses', Clamp);
    states', accesses' := Extended(l, states', accesses', AddGrant);
  }

  lemma Extended(l: Limits, states: seq<Shared>, accesses: seq<Access>, a: Access)
    returns (states': seq<Shared>, accesses': seq<Access>)
    requires Trace(l, states, accesses) && Enabled(states[|states| - 1], a)
    ensures Trace(l, states', accesses') && states'[|states'| - 1] == Do(l, states[|states| - 1], a)
    ensures NeverBelowZero(states) && Do(l, states[|states| - 1], a).generated >= 0 ==> NeverBelowZero(states')
    ensures NeverBelowZero(states) ==> states[|states| - 1].generated >= 0
  {
    states', accesses' := states + [Do(l, states[|states| - 1], a)], accesses + [a];
  }

  /** No input ends twice. */
  ghost predicate OnlyOutstanding(states: seq<Shared>) {
    forall k :: 0 <= k < |states| ==> states[k].outstanding >= 0
  }

  ghost predicate Exact(l: Limits, s: Shared) {
    && s.active == s.outstanding <= l.maxActive
    && s.clamping == 0 && s.lock != Releasing(true)
    && (s.lock.Granting? ==> s.active + s.lock.num <= l.maxActive)
  }

  /** As long as only outstanding inputs end, the active count is exact under every interleaving, nothing is
      ever repaired, and the active limit holds for all limits. */
  lemma {:induction false} CountIsExactInterleaved(l: Limits, states: seq<Shared>, accesses: seq<Access>, k: nat)
    requires l.maxActive >= 0 && Trace(l, states, accesses) && OnlyOutstanding(states) && k < |states|
    ensures Exact(l, states[k])
  {
    if k > 0 {
      CountIsExactInterleaved(l, states, accesses, k - 1);
      assert Enabled(states[k - 1], accesses[k - 1]);
      assert states[k - 1].outstanding >= 0 && states[k].outstanding >= 0;
    }
  }
}

/** Taking the sources in turn. */
module SourceRotation {

  /** The search for the next eligible source: at most `count` turns, one of which is spent on wrapping round. */
  function Scan(eligible: seq<bool>, iter: nat, count: nat): (r: (int, nat))
    decreases count
  {
    if count == 0 then (-1, iter)
    else if iter < |eligible| then
      if eligible[iter] then (iter, iter + 1) else Scan(eligible, iter + 1, count - 1)
    else Scan(eligible, 0, count - 1)
  }

  /** One call: as many turns as there are sources. */
  function Pick(eligible: seq<bool>, iter: nat): (int, nat) {
    Scan(eligible, iter, |eligible|)
  }

  /** The turn at which the search that starts at `iter` looks at source `i`. */
  function Turn(iter: nat, i: nat, n: nat): int {
    if iter <= i then i - iter else n - iter + 1 + i
  }

  /** The search returns the eligible source that comes first, and none exactly if none comes up in time. */
  lemma {:induction false} ScanFindsFirst(eligible: seq<bool>, iter: nat, count: nat)
    requires iter <= |eligible| && count <= |eligible|
    ensures var (idx, next), n := Scan(eligible, iter, count), |eligible|;
            if idx >= 0 then
              && idx < n && eligible[idx] && next == idx + 1 && Turn(iter, idx, n) < count
              && forall i :: 0 <= i < n && eligible[i] ==> Turn(iter, idx, n) <= Turn(iter, i, n)
            else
              && idx == -1 && next <= n
              && next == (if iter + count <= n then iter + count else iter + count - n - 1)
              && forall i :: 0 <= i < n && eligible[i] ==> Turn(iter, i, n) >= count
    decreases count
  {
    var n := |eligible|;
    if count > 0 {
      if iter < n {
        if !eligible[iter] {
          ScanFindsFirst(eligible, iter + 1, count - 1);
          assert forall i :: 0 <= i < n && i != iter ==> Turn(iter, i, n) == Turn(iter + 1, i, n) + 1;
        }
      } else {
        ScanFindsFirst(eligible, 0, count - 1);
        assert forall i :: 0 <= i < n ==> Turn(n, i, n) == Turn(0, i, n) + 1;
      }
    }
  }

  /** The one source that a call does not look at, if there is one. */
  ghost predicate Skipped(iter: nat, i: nat) {
    i + 1 == iter
  }

  /** A returned source is eligible; nothing is returned exactly when no source is eligible except the skipped
      one. */
  lemma PickIsSound(eligible: seq<bool>, iter: nat)
    requires iter <= |eligible|
    ensures Pick(eligible, iter).0 >= 0 ==> Pick(eligible, iter).0 < |eligible| && eligible[Pick(eligible, iter).0]
    ensures Pick(eligible, iter).0 == -1 <==> forall i :: 0 <= i < |eligible| && eligible[i] ==> Skipped(iter, i)
    ensures Pick(eligible, iter).0 >= -1 && Pick(eligible, iter).1 <= |eligible|
  {
    ScanFindsFirst(eligible, iter, |eligible|);
    assert forall i :: 0 <= i < |eligible| ==> (Turn(iter, i, |eligible|) >= |eligible| <==> Skipped(iter, i));
  }

  /** Two calls in a row cannot both return nothing if some source is eligible at both. */
  lemma NotTwiceNothing(eligible: seq<bool>, eligible': seq<bool>, iter: nat, i: nat)
    requires |eligible| == |eligible'| && iter <= |eligible| && i < |eligible| && eligible[i] && eligible'[i]
    requires Pick(eligible, iter).0 == -1
    ensures Pick(eligible', Pick(eligible, iter).1).0 == i
  {
    PickIsSound(eligible, iter);
    ScanFindsFirst(eligible, iter, |eligible|);
  }

  /** The cursor at each call, while the eligibility may change from call to call. */
  function Cursor(calls: seq<seq<bool>>, iter: nat): nat {
    if calls == [] then iter else Pick(calls[|calls| - 1], Cursor(calls[..|calls| - 1], iter)).1
  }

  /** The source returned by call `k` of a run. */
  function Returned(calls: seq<seq<bool>>, iter: nat, k: nat): int
    requires k < |calls|
  {
    Pick(calls[k], Cursor(calls[..k], iter)).0
  }

  ghost predicate SameSources(calls: seq<seq<bool>>, n: nat) {
    forall k :: 0 <= k < |calls| ==> |calls[k]| == n
  }

  /** No source starves: one that stays eligible is returned before its turns are used up. */
  lemma {:induction false} NoStarvation(calls: seq<seq<bool>>, iter: nat, n: nat, i: nat)
    requires SameSources(calls, n) && iter <= n && i < n
    requires forall k :: 0 <= k < |calls| ==> calls[k][i]
    ensures Cursor(calls, iter) <= n
    ensures |calls| > Turn(iter, i, n) ==> exists k :: 0 <= k < |calls| && Returned(calls, iter, k) == i
    ensures |calls| <= Turn(iter, i, n) && (forall k :: 0 <= k < |calls| ==> Returned(calls, iter, k) != i)
            ==> Turn(Cursor(calls, iter), i, n) <= Turn(iter, i, n) - |calls|
  {
    if calls != [] {
      var last := |calls| - 1;
      var before := calls[..last];
      NoStarvation(before, iter, n, i);
      var c := Cursor(before, iter);
      PickIsSound(calls[last], c);
      ScanFindsFirst(calls[last], c, n);
      forall k | 0 <= k < last ensures Returned(before, iter, k) == Returned(calls, iter, k) {
        assert before[..k] == calls[..k];
      }
      if exists k :: 0 <= k < last && Returned(before, iter, k) == i {
        var k :| 0 <= k < last && Returned(before, iter, k) == i;
        assert Returned(calls, iter, k) == i;
      } else if Pick(calls[last], c).0 == i {
        assert Returned(calls, iter, last) == i;
      }
    }
  }

  /** A source that stays eligible is returned by one of any `n + 1` calls in a row, wherever the cursor stands. */
  lemma ReturnedInEveryWindow(calls: seq<seq<bool>>, iter: nat, n: nat, i: nat)
    requires SameSources(calls, n) && iter <= n && i < n && |calls| == n + 1
    requires forall k :: 0 <= k < |calls| ==> calls[k][i]
    ensures exists k :: 0 <= k <= n && Returned(calls, iter, k) == i
  {
    NoStarvation(calls, iter, n, i);
  }

  /** The position `k` places after `first` on a ring of `n`. */
  function Along(first: nat, k: nat, n: nat): int {
    if first + k < n then first + k else first + k - n
  }

  ghost predicate AllEligible(calls: seq<seq<bool>>, n: nat) {
    SameSources(calls, n) && forall k, i :: 0 <= k < |calls| && 0 <= i < n ==> calls[k][i]
  }

  /** With two or more sources, all eligible, calls return the sources in turn. */
  lemma {:induction false} RoundRobin(calls: seq<seq<bool>>, iter: nat, n: nat, k: nat)
    requires AllEligible(calls, n) && n >= 2 && iter <= n && k < |calls| <= n
    ensures var first := if iter == n then 0 else iter;
            && Returned(calls, iter, k) == Along(first, k, n)
            && Cursor(calls[..k + 1], iter) == Along(first, k, n) + 1
  {
    var first := if iter == n then 0 else iter;
    assert calls[..k + 1][..k] == calls[..k];
    var c := Cursor(calls[..k], iter);
    if k > 0 {
      RoundRobin(calls, iter, n, k - 1);
    } else {
      assert c == iter;
    }
    NextInTurn(calls[k], c);
  }

  /** With all sources eligible the one at the cursor is returned, after wrapping round if need be. */
  lemma NextInTurn(eligible: seq<bool>, iter: nat)
    requires iter <= |eligible| && |eligible| >= 2 && forall i :: 0 <= i < |eligible| ==> eligible[i]
    ensures var start := if iter == |eligible| then 0 else iter;
            Pick(eligible, iter) == (start, start + 1)
  {
    var start := if iter == |eligible| then 0 else iter;
    ScanFindsFirst(eligible, iter, |eligible|);
    assert eligible[start] && Turn(iter, start, |eligible|) <= 1;
    assert forall i :: 0 <= i < |eligible| && i != start ==> Turn(iter, i, |eligible|) > Turn(iter, start, |eligible|);
  }

  /** With two or more sources, all eligible, any `n` calls in a row return each source exactly once,
      wherever the cursor stands before them. */
  lemma EachOnce(calls: seq<seq<bool>>, iter: nat, n: nat, i: nat)
    requires AllEligible(calls, n) && n >= 2 && iter <= n && |calls| == n && i < n
    ensures exists k :: 0 <= k < n && Returned(calls, iter, k) == i
    ensures forall j, k :: 0 <= j < k < n ==> Returned(calls, iter, j) != Returned(calls, iter, k)
  {
    var first := if iter == n then 0 else iter;
    forall k | 0 <= k < n ensures Returned(calls, iter, k) == Along(first, k, n) {
      RoundRobin(calls, iter, n, k);
    }
    assert Returned(calls, iter, if first <= i then i - first else n - first + i) == i;
  }

  /** A single source is returned only by every other call. */
  lemma SingleSourceAlternates()
    ensures Pick([true], 0) == (0, 1)
    ensures Pick([true], 1) == (-1, 0)
  {}
}

/** The generation object. */
module Generations {
  import opened Basics
  import opened GenerationQuotas
  import opened SourceRotation

  datatype Source = Source(formID: FormID, derivedFails: nat, derivedInputs: nat)

  class Generation {
    var generatedSize: int
    var targetSize: int
    var activeInputs: int
    var maxActiveInputs: int
    var maxSimultaneousGeneration: int
    var generatedInputs: set<FormID>

    var sources: seq<Source>
    var sourcesIter: nat
    var maxDerivedFailingInputs: nat
    var maxDerivedInputs: nat

    function Now(): Counters
      reads this
    {
      Counters(generatedSize, activeInputs)
    }

    function Bounds(): Limits
      reads this
    {
      Limits(targetSize, maxActiveInputs, maxSimultaneousGeneration)
    }

    ghost predicate Valid()
      reads this
    {
      sourcesIter <= |sources|
    }

    constructor (limits: Limits)
      ensures Valid() && Now() == START && Bounds() == limits && sources == [] && generatedInputs == {}
    {
      generatedSize, activeInputs := 0, 0;
      targetSize, maxActiveInputs, maxSimultaneousGeneration := limits.target, limits.maxActive, limits.maxSimultaneous;
      generatedInputs, sources, sourcesIter := {}, [], 0;
      maxDerivedFailingInputs, maxDerivedInputs := 0, 0;
    }

    method CanGenerate() returns (ok: bool, num: int)
      modifies this`activeInputs, this`generatedSize
      ensures ok == !Refused(old(Bounds()), old(Now()))
      ensures num == if ok then Allowance(old(Bounds()), old(Now())) else 0
      ensures Now() == Step(old(Bounds()), old(Now()), Grant)
    {
      if generatedSize < targetSize {
        var active := activeInputs;
        num := 0;
        if maxActiveInputs - active <= 0 {
          return false, 0;
        }
        if maxActiveInputs - active < maxSimultaneousGeneration {
          num := Min(maxActiveInputs - active, targetSize - generatedSize);
        } else {
          num := if targetSize - generatedSize > maxSimultaneousGeneration then maxSimultaneousGeneration
            else targetSize - generatedSize;
        }
        activeInputs := activeInputs + num;
        generatedSize := generatedSize + num;
        return true, num;
      } else {
        return false, 0;
      }
    }

    method FailGeneration(fails: nat)
      modifies this`activeInputs, this`generatedSize
      ensures Now() == Step(old(Bounds()), old(Now()), Fail(fails))
    {
      generatedSize := generatedSize - fails;
      activeInputs := activeInputs - fails;
      if activeInputs < 0 {
        activeInputs := 0;
      }
    }

    method SetInputCompleted()
      modifies this`activeInputs
      ensures Now() == Step(old(Bounds()), old(Now()), Complete)
    {
      activeInputs := activeInputs - 1;
      if activeInputs < 0 {
        activeInputs := 0;
      }
    }

    method ResetActiveInputs()
      modifies this`activeInputs
      ensures Now() == Step(old(Bounds()), old(Now()), Reset)
    {
      activeInputs := 0;
    }

    method AddGeneratedInput(id: FormID)
      modifies this`generatedInputs
      ensures generatedInputs == old(generatedInputs) + {id}
    {
      generatedInputs := generatedInputs + {id};
    }

    method RemoveGeneratedInput(id: FormID) returns (removed: bool)
      modifies this`generatedInputs, this`generatedSize
      ensures removed == (id in old(generatedInputs)) && generatedInputs == old(generatedInputs) - {id}
      ensures Now() == Step(old(Bounds()), old(Now()), Remove(removed))
    {
      if id in generatedInputs {
        generatedInputs := generatedInputs - {id};
        generatedSize := generatedSize - 1;
        return true;
      }
      return false;
    }

    method IsActive() returns (active: bool)
      ensures !active <==> Now().active == 0 && Now().generated >= Bounds().target
    {
      return !(activeInputs == 0 && generatedSize >= targetSize);
    }

    predicate EligibleSource(s: Source)
      reads this`maxDerivedFailingInputs, this`maxDerivedInputs
    {
      && (maxDerivedFailingInputs == 0 || s.derivedFails < maxDerivedFailingInputs)
      && (maxDerivedInputs == 0 || s.derivedInputs < maxDerivedInputs)
    }

    ghost function Eligibility(): (r: seq<bool>)
      reads this`sources, this`maxDerivedFailingInputs, this`maxDerivedInputs
      ensures |r| == |sources| && forall i :: 0 <= i < |sources| ==> r[i] == EligibleSource(sources[i])
    {
      EligibleAmong(sources)
    }

    ghost function EligibleAmong(s: seq<Source>): (r: seq<bool>)
      reads this`maxDerivedFailingInputs, this`maxDerivedInputs
      ensures |r| == |s| && forall i :: 0 <= i < |s| ==> r[i] == EligibleSource(s[i])
    {
      if s == [] then [] else EligibleAmong(s[..|s| - 1]) + [EligibleSource(s[|s| - 1])]
    }

    lemma PickedInValues()
      requires Valid()
      ensures var idx := Pick(Eligibility(), sourcesIter).0;
              && -1 <= idx < |sources|
              && (idx >= 0 && maxDerivedFailingInputs > 0 ==> sources[idx].derivedFails < maxDerivedFailingInputs)
              && (idx >= 0 && maxDerivedInputs > 0 ==> sources[idx].derivedInputs < maxDerivedInputs)
              && (idx == -1 ==> forall i :: 0 <= i < |sources| && i != sourcesIter - 1 ==>
                    || 0 < maxDerivedFailingInputs <= sources[i].derivedFails
                    || 0 < maxDerivedInputs <= sources[i].derivedInputs)
    {
      PickIsSound(Eligibility(), sourcesIter);
    }

    /** The index of the next source, or -1. A limit of zero is none; a source that has reached one of the
        others is not returned. If none is returned, all have, except perhaps the one behind which the search began.
        */
    method GetRandomSource() returns (idx: int)
      requires Valid()
      modifies this`sourcesIter
      ensures Valid()
      ensures (idx, sourcesIter) == Pick(old(Eligibility()), old(sourcesIter))
      ensures -1 <= idx < |sources|
      ensures idx >= 0 && maxDerivedFailingInputs > 0 ==> sources[idx].derivedFails < maxDerivedFailingInputs
      ensures idx >= 0 && maxDerivedInputs > 0 ==> sources[idx].derivedInputs < maxDerivedInputs
      ensures idx == -1 ==> forall i :: 0 <= i < |sources| && i != old(sourcesIter) - 1 ==>
                || 0 < maxDerivedFailingInputs <= sources[i].derivedFails
                || 0 < maxDerivedInputs <= sources[i].derivedInputs
    {
      PickedInValues();
      idx := -1;
      if |sources| > 0 {
        ghost var eligible := Eligibility();
        var count := |sources|;
        while count > 0
          invariant 0 <= count <= |sources| && sourcesIter <= |sources|
          invariant eligible == Eligibility()
          invariant idx == -1 && Scan(eligible, sourcesIter, count) == Pick(eligible, old(sourcesIter))
        {
          if sourcesIter < |sources| {
            if (maxDerivedFailingInputs == 0 || sources[sourcesIter].derivedFails < maxDerivedFailingInputs) &&
               (maxDerivedInputs == 0 || sources[sourcesIter].derivedInputs < maxDerivedInputs) {
              idx := sourcesIter;
              sourcesIter := sourcesIter + 1;
              break;
            } else {
              sourcesIter := sourcesIter + 1;
            }
          } else {
            sourcesIter := 0;
          }
          count := count - 1;
        }
      }
    }

    method AddSource(input: Source)
      requires Valid()
      modifies this`sources
      ensures Valid() && sources == old(sources) + [input]
    {
      sources := sources + [input];
    }
  }
}
