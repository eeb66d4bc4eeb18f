/**
  The completion queue: a bounded first-in first-out queue with a per-queue-pair purge, a
  one-shot notification and a permanent overflow state.

  `accepted`, `polled`, `purged`, `fired` and `arms` are history.  An entry carries its number,
  the position of its completion in `accepted`.
 */
module CompletionQueue {
  datatype Completion = Completion(qp: nat, id: int)

  datatype Cqe = Cqe(number: nat, wc: Completion)

  datatype Notify = Never | Solicited | NextComp

  datatype Cq = Cq(capacity: nat, entries: seq<Cqe>, free: nat, nrCqe: int, ok: bool, notify: Notify, hasNotified: bool,
                   accepted: seq<Completion>, polled: seq<Cqe>, purged: set<nat>, fired: nat, arms: nat)

  const EACCES := -13
  const ENOMEM := -12

  /** pib_create_cq. */
  function Fresh(capacity: nat): Cq {
    Cq(capacity, [], capacity, 0, true, Never, true, [], [], {}, 0, 0)
  }

  /** insert_wc. */
  function Insert(c: Cq, wc: Completion, solicited: bool): (Cq, int) {
    if !c.ok then (c, EACCES)
    else if c.free == 0 then (c.(ok := false), ENOMEM)
    else
      var c1 := c.(entries := c.entries + [Cqe(|c.accepted|, wc)], free := c.free - 1, nrCqe := c.nrCqe + 1,
                   accepted := c.accepted + [wc]);
      if (c.notify == NextComp || (c.notify == Solicited && solicited)) && !c.hasNotified
      then (c1.(hasNotified := true, fired := c.fired + 1), 0)
      else (c1, 0)
  }

  /** pib_poll_cq. */
  function Poll(c: Cq, wanted: int): (Cq, int) {
    if !c.ok then (c, EACCES)
    else
      var k := if wanted < 0 then 0 else if wanted < |c.entries| then wanted else |c.entries|;
      (c.(entries := c.entries[k..], free := c.free + k, nrCqe := c.nrCqe - k, polled := c.polled + c.entries[..k]), k)
  }

  function Others(q: seq<Cqe>, qp: nat): seq<Cqe> {
    if q == [] then []
    else
      var n := |q| - 1;
      Others(q[..n], qp) + if q[n].wc.qp == qp then [] else [q[n]]
  }

  function Only(q: seq<Cqe>, qp: nat): seq<Cqe> {
    if q == [] then []
    else
      var n := |q| - 1;
      Only(q[..n], qp) + if q[n].wc.qp == qp then [q[n]] else []
  }

  /** pib_util_remove_cq; it does not look at the state of the queue. */
  function Purge(c: Cq, qp: nat): (Cq, int) {
    var rest := Others(c.entries, qp);
    var count := |c.entries| - |rest|;
    (c.(entries := rest, free := if count < 0 then c.free else c.free + count, nrCqe := c.nrCqe - count,
        purged := c.purged + {qp}), count)
  }

  /** pib_req_notify_cq. */
  function Arm(c: Cq, solicited: bool, next: bool, missed: bool): (Cq, int) {
    if !c.ok then (c, -1)
    else
      (c.(notify := if solicited then Solicited else if next then NextComp else c.notify,
          hasNotified := false, arms := c.arms + 1),
       if missed && c.entries != [] then 1 else 0)
  }

  // ---------------------------------------------------------------------------
  // Runs

  datatype Action =
    | DoInsert(wc: Completion, solicited: bool)
    | DoPoll(wanted: int)
    | DoPurge(qp: nat)
    | DoArm(solicitedOnly: bool, next: bool, missed: bool)

  function Apply(c: Cq, a: Action): Cq {
    match a
    case DoInsert(wc, solicited) => Insert(c, wc, solicited).0
    case DoPoll(wanted) => Poll(c, wanted).0
    case DoPurge(qp) => Purge(c, qp).0
    case DoArm(solicited, next, missed) => Arm(c, solicited, next, missed).0
  }

  function Run(c: Cq, actions: seq<Action>): Cq {
    if actions == [] then c
    else
      var n := |actions| - 1;
      Apply(Run(c, actions[..n]), actions[n])
  }

  /** Every completion ever accepted, numbered. */
  function Numbered(accepted: seq<Completion>): seq<Cqe> {
    seq(|accepted|, i requires 0 <= i < |accepted| => Cqe(i, accepted[i]))
  }

  ghost predicate Ascending(q: seq<Cqe>) {
    forall i, j :: 0 <= i < j < |q| ==> q[i].number < q[j].number
  }

  ghost predicate Genuine(q: seq<Cqe>, accepted: seq<Completion>) {
    forall i :: 0 <= i < |q| ==> q[i].number < |accepted| && accepted[q[i].number] == q[i].wc
  }

  /** Used and free cells add up, and the counter agrees. */
  predicate Counted(c: Cq) {
    |c.entries| == c.nrCqe && c.nrCqe + c.free == c.capacity
  }

  /** What was polled and what is queued came in this order; a queue pair never purged has lost nothing. */
  ghost predicate InOrder(c: Cq) {
    && Ascending(c.polled + c.entries)
    && Genuine(c.polled + c.entries, c.accepted)
    && forall qp :: qp !in c.purged ==> Only(c.polled + c.entries, qp) == Only(Numbered(c.accepted), qp)
  }

  /** Each arming pays for at most one notification. */
  predicate Paid(c: Cq) {
    c.fired + (if c.hasNotified then 0 else 1) <= c.arms
  }

  ghost predicate Inv(c: Cq) {
    Counted(c) && InOrder(c) && Paid(c)
  }

  lemma {:induction false} OnlyJoin(a: seq<Cqe>, b: seq<Cqe>, qp: nat)
    ensures Only(a + b, qp) == Only(a, qp) + Only(b, qp)
    decreases |b|
  {
    if b == [] {
      assert a + b == a;
    } else {
      var n := |b| - 1;
      OnlyJoin(a, b[..n], qp);
      assert (a + b)[..|a + b| - 1] == a + b[..n];
    }
  }

  lemma OthersNone(qp: nat)
    ensures Others([], qp) == []
  {
  }

  lemma OthersStep(q: seq<Cqe>, i: nat, qp: nat)
    requires i < |q|
    ensures Others(q[..i + 1], qp) == Others(q[..i], qp) + if q[i].wc.qp == qp then [] else [q[i]]
  {
    assert q[..i + 1][..i] == q[..i];
  }

  lemma {:induction false} OthersShare(q: seq<Cqe>, qp: nat, other: nat)
    requires other != qp
    ensures Only(Others(q, qp), other) == Only(q, other)
    decreases |q|
  {
    if q != [] {
      var n := |q| - 1;
      OthersShare(q[..n], qp, other);
      var before := Others(q[..n], qp);
      OnlyJoin(before, [q[n]], other);
      assert Only([q[n]], other) == if q[n].wc.qp == other then [q[n]] else [];
      assert before + [] == before;
    }
  }

  /** The others keep their order and their numbers. */
  lemma {:induction false} OthersKeep(q: seq<Cqe>, qp: nat, accepted: seq<Completion>)
    requires Ascending(q) && Genuine(q, accepted)
    ensures var rest := Others(q, qp);
      && |rest| <= |q| && Ascending(rest) && Genuine(rest, accepted)
      && forall i :: 0 <= i < |rest| ==> rest[i] in q && rest[i].wc.qp != qp
    decreases |q|
  {
    if q != [] {
      var n := |q| - 1;
      OthersKeep(q[..n], qp, accepted);
      var before := Others(q[..n], qp);
      forall i | 0 <= i < |before| ensures before[i].number < q[n].number {
        assert before[i] in q[..n];
      }
    }
  }

  lemma InsertKeeps(c: Cq, wc: Completion, solicited: bool)
    requires Inv(c)
    ensures Inv(Insert(c, wc, solicited).0)
  {
    var c' := Insert(c, wc, solicited).0;
    if c.ok && c.free > 0 {
      var e := Cqe(|c.accepted|, wc);
      var all := c.polled + c.entries;
      assert c'.polled + c'.entries == all + [e];
      assert Numbered(c'.accepted) == Numbered(c.accepted) + [e];
      forall qp | qp !in c.purged ensures Only(all + [e], qp) == Only(Numbered(c.accepted) + [e], qp) {
        OnlyJoin(all, [e], qp);
        OnlyJoin(Numbered(c.accepted), [e], qp);
      }
    }
  }

  lemma PollKeeps(c: Cq, wanted: int)
    requires Inv(c)
    ensures Inv(Poll(c, wanted).0)
  {
    var (c', k) := Poll(c, wanted);
    if c.ok {
      assert c'.polled + c'.entries == c.polled + c.entries;
    }
  }

  /** A purge after `polled`: order and numbers. */
  lemma PurgeOrder(polled: seq<Cqe>, q: seq<Cqe>, rest: seq<Cqe>, accepted: seq<Completion>)
    requires Ascending(polled + q) && Genuine(polled + q, accepted)
    requires Ascending(rest) && Genuine(rest, accepted) && forall i :: 0 <= i < |rest| ==> rest[i] in q
    ensures Ascending(polled + rest) && Genuine(polled + rest, accepted)
  {
    var all, all' := polled + q, polled + rest;
    assert forall i :: 0 <= i < |polled| ==> polled[i] == all[i];
    forall i, j | 0 <= i < |polled| && 0 <= j < |rest| ensures polled[i].number < rest[j].number {
      var k :| 0 <= k < |q| && q[k] == rest[j];
      assert all[|polled| + k] == rest[j];
    }
  }

  lemma PartOrder(a: seq<Cqe>, b: seq<Cqe>, accepted: seq<Completion>)
    requires Ascending(a + b) && Genuine(a + b, accepted)
    ensures Ascending(b) && Genuine(b, accepted)
  {
    assert forall i :: 0 <= i < |b| ==> b[i] == (a + b)[|a| + i];
  }

  lemma PurgeKeeps(c: Cq, qp: nat)
    requires Inv(c)
    ensures Inv(Purge(c, qp).0)
    ensures Purge(c, qp).1 == |c.entries| - |Purge(c, qp).0.entries| >= 0
  {
    hide Only, Others, Ascending, Genuine;
    PartOrder(c.polled, c.entries, c.accepted);
    OthersKeep(c.entries, qp, c.accepted);
    var c' := Purge(c, qp).0;
    PurgeOrder(c.polled, c.entries, c'.entries, c.accepted);
    forall other | other !in c'.purged
      ensures Only(c'.polled + c'.entries, other) == Only(Numbered(c.accepted), other)
    {
      OnlyJoin(c.polled, c.entries, other);
      OnlyJoin(c.polled, c'.entries, other);
      OthersShare(c.entries, qp, other);
    }
  }

  lemma ApplyKeeps(c: Cq, a: Action)
    requires Inv(c)
    ensures Inv(Apply(c, a))
  {
    hide Insert, Poll, Purge;
    match a
    case DoInsert(wc, solicited) => InsertKeeps(c, wc, solicited);
    case DoPoll(wanted) => PollKeeps(c, wanted);
    case DoPurge(qp) => PurgeKeeps(c, qp);
    case DoArm(_, _, _) =>
  }

  /** Any mix of calls keeps the counts, the order and the notification budget. */
  lemma {:induction false} RunKeeps(capacity: nat, actions: seq<Action>)
    ensures Inv(Run(Fresh(capacity), actions))
    decreases |actions|
  {
    if actions == [] {
      assert Only([], 0) == [];
      assert Numbered([]) == [];
    } else {
      RunKeeps(capacity, actions[..|actions| - 1]);
      ApplyKeeps(Run(Fresh(capacity), actions[..|actions| - 1]), actions[|actions| - 1]);
    }
  }

  ghost predicate Fifo(c: Cq) {
    c.polled + c.entries == Numbered(c.accepted)
  }

  lemma FifoStep(c: Cq, a: Action)
    requires Fifo(c) && !a.DoPurge?
    ensures Fifo(Apply(c, a))
  {
    var c' := Apply(c, a);
    if a.DoInsert? && c'.accepted != c.accepted {
      var e := Cqe(|c.accepted|, a.wc);
      assert Numbered(c'.accepted) == Numbered(c.accepted) + [e];
      assert c'.polled + c'.entries == (c.polled + c.entries) + [e];
    } else if a.DoPoll? && c.ok {
      assert c'.polled + c'.entries == c.polled + c.entries;
    }
  }

  /** Without purges the queue is exactly first-in first-out: accepted is polled followed by queued. */
  lemma {:induction false} FifoUnlessPurged(capacity: nat, actions: seq<Action>)
    requires forall i :: 0 <= i < |actions| ==> !actions[i].DoPurge?
    ensures Fifo(Run(Fresh(capacity), actions))
    decreases |actions|
  {
    if actions != [] {
      hide Apply, Fifo;
      var n := |actions| - 1;
      FifoUnlessPurged(capacity, actions[..n]);
      FifoStep(Run(Fresh(capacity), actions[..n]), actions[n]);
    }
  }

  /** Step `i` inserts into a working queue with no free entry. */
  predicate OverflowsAt(capacity: nat, actions: seq<Action>, i: nat)
    requires i < |actions|
  {
    var c := Run(Fresh(capacity), actions[..i]);
    actions[i].DoInsert? && c.ok && |c.entries| == capacity
  }

  lemma OverflowStep(c: Cq, a: Action)
    requires Counted(c)
    ensures Apply(c, a).capacity == c.capacity
    ensures !Apply(c, a).ok <==> !c.ok || (a.DoInsert? && c.ok && |c.entries| == c.capacity)
  {
  }

  lemma SameBefore(capacity: nat, actions: seq<Action>, n: nat, i: nat)
    requires i < n <= |actions|
    ensures OverflowsAt(capacity, actions[..n], i) == OverflowsAt(capacity, actions, i)
  {
    assert actions[..n][..i] == actions[..i];
  }

  /** The queue is in error if and only if some insert met it full. */
  lemma {:induction false} OverflowIff(capacity: nat, actions: seq<Action>)
    ensures Run(Fresh(capacity), actions).capacity == capacity
    ensures !Run(Fresh(capacity), actions).ok <==> exists i :: 0 <= i < |actions| && OverflowsAt(capacity, actions, i)
    decreases |actions|
  {
    if actions != [] {
      var n := |actions| - 1;
      OverflowIff(capacity, actions[..n]);
      CountedRun(capacity, actions[..n]);
      var c := Run(Fresh(capacity), actions[..n]);
      OverflowStep(c, actions[n]);
      assert OverflowsAt(capacity, actions, n) <==> actions[n].DoInsert? && c.ok && |c.entries| == capacity;
      hide Apply, OverflowsAt;
      forall i | 0 <= i < n ensures OverflowsAt(capacity, actions[..n], i) == OverflowsAt(capacity, actions, i) {
        SameBefore(capacity, actions, n, i);
      }
    }
  }

  lemma CountedRun(capacity: nat, actions: seq<Action>)
    ensures Counted(Run(Fresh(capacity), actions))
  {
    RunKeeps(capacity, actions);
  }

  /** Once in error the queue takes nothing in and gives nothing out. */
  lemma {:induction false} ErrorIsFinal(c: Cq, actions: seq<Action>)
    requires !c.ok
    ensures var c' := Run(c, actions);
      !c'.ok && c'.accepted == c.accepted && c'.polled == c.polled && c'.fired == c.fired && c'.arms == c.arms
    decreases |actions|
  {
    if actions != [] {
      ErrorIsFinal(c, actions[..|actions| - 1]);
    }
  }

  // ---------------------------------------------------------------------------
  // What a poll gives, and when a notification comes

  /**
    In every run without purges a poll of a working queue returns as many completions as were asked for,
    or all there are, and they are the oldest ones not polled yet.
   */
  lemma PollGivesOldest(capacity: nat, actions: seq<Action>, wanted: nat)
    requires forall i :: 0 <= i < |actions| ==> !actions[i].DoPurge?
    requires Run(Fresh(capacity), actions).ok
    ensures var c := Run(Fresh(capacity), actions);
      var (c', n) := Poll(c, wanted);
      var left := |c.accepted| - |c.polled|;
      && 0 <= left && n == (if wanted < left then wanted else left)
      && c'.polled == Numbered(c.accepted)[..|c.polled| + n] && |c'.entries| == left - n
  {
    hide Run;
    FifoUnlessPurged(capacity, actions);
    var c := Run(Fresh(capacity), actions);
    assert |c.polled| + |c.entries| == |Numbered(c.accepted)| == |c.accepted|;
    var n := Poll(c, wanted).1;
    assert c.polled + c.entries[..n] == (c.polled + c.entries)[..|c.polled| + n];
  }

  /** With purges it returns the oldest of those that are left. */
  lemma PollGivesQueued(c: Cq, wanted: nat)
    requires c.ok
    ensures var (c', n) := Poll(c, wanted);
      && n == (if wanted < |c.entries| then wanted else |c.entries|)
      && c'.polled == c.polled + c.entries[..n] && c.entries == c.entries[..n] + c'.entries
  {
  }

  /**
    A purge leaves no completion of the queue pair in the queue and every other one in its place among
    the others; it returns how many it removed.
   */
  lemma PurgeRemoves(c: Cq, qp: nat)
    ensures var (c', n) := Purge(c, qp);
      && (forall i :: 0 <= i < |c'.entries| ==> c'.entries[i].wc.qp != qp)
      && (forall other :: other != qp ==> Only(c'.entries, other) == Only(c.entries, other))
      && n == |c.entries| - |c'.entries| == |Only(c.entries, qp)| && c'.polled == c.polled
  {
    OthersLack(c.entries, qp);
    forall other | other != qp ensures Only(Others(c.entries, qp), other) == Only(c.entries, other) {
      OthersShare(c.entries, qp, other);
    }
  }

  lemma {:induction false} OthersLack(q: seq<Cqe>, qp: nat)
    ensures forall i :: 0 <= i < |Others(q, qp)| ==> Others(q, qp)[i].wc.qp != qp
    ensures |Others(q, qp)| + |Only(q, qp)| == |q|
  {
    if q != [] {
      OthersLack(q[..|q| - 1], qp);
    }
  }

  /** In every run an insert is accepted if and only if the queue works and is not full; a full one breaks it. */
  lemma InsertOutcome(capacity: nat, actions: seq<Action>, wc: Completion, solicited: bool)
    ensures var c := Run(Fresh(capacity), actions);
      var (c', result) := Insert(c, wc, solicited);
      && (result == 0 <==> c.ok && |c.entries| < capacity)
      && c'.accepted == (if result == 0 then c.accepted + [wc] else c.accepted)
      && (c.ok && |c.entries| == capacity ==> result == ENOMEM && !c'.ok) && (!c.ok ==> result == EACCES)
  {
    hide Run;
    OverflowIff(capacity, actions);
    CountedRun(capacity, actions);
  }

  /** Arming tells of completions already waiting, if it is asked to. */
  lemma ArmTellsWaiting(capacity: nat, actions: seq<Action>, solicitedOnly: bool, next: bool, missed: bool)
    requires forall i :: 0 <= i < |actions| ==> !actions[i].DoPurge?
    requires Run(Fresh(capacity), actions).ok
    ensures var c := Run(Fresh(capacity), actions);
      Arm(c, solicitedOnly, next, missed).1 == (if missed && |c.polled| < |c.accepted| then 1 else 0)
  {
    hide Run;
    FifoUnlessPurged(capacity, actions);
    var c := Run(Fresh(capacity), actions);
    assert |c.polled| + |c.entries| == |Numbered(c.accepted)| == |c.accepted|;
  }

  /** An insert an armed queue is waiting for. */
  predicate Matches(mode: Notify, solicited: bool) {
    mode == NextComp || (mode == Solicited && solicited)
  }

  /** Neither a new arming nor an insert that is waited for. */
  predicate Quiet(mode: Notify, a: Action) {
    !a.DoArm? && (a.DoInsert? ==> !Matches(mode, a.solicited))
  }

  lemma {:induction false} StaysArmed(c: Cq, mode: Notify, actions: seq<Action>)
    requires c.notify == mode && !c.hasNotified && forall i :: 0 <= i < |actions| ==> Quiet(mode, actions[i])
    ensures var t := Run(c, actions); t.notify == mode && !t.hasNotified && t.fired == c.fired
    decreases |actions|
  {
    hide Others;
    if actions != [] {
      StaysArmed(c, mode, actions[..|actions| - 1]);
      assert Quiet(mode, actions[|actions| - 1]);
    }
  }

  /**
    An armed queue fires on the next insert it waits for, whatever else happens in between, as long as it
    works and has room: any insert, or a solicited one if it was armed for those only.
   */
  lemma ArmedFires(c: Cq, mode: Notify, missed: bool, actions: seq<Action>, wc: Completion, solicited: bool)
    requires c.ok && mode != Never && Matches(mode, solicited) && forall i :: 0 <= i < |actions| ==> Quiet(mode, actions[i])
    requires var t := Run(Arm(c, mode == Solicited, mode == NextComp, missed).0, actions); t.ok && t.free > 0
    ensures var t := Run(Arm(c, mode == Solicited, mode == NextComp, missed).0, actions);
      t.fired == c.fired && Insert(t, wc, solicited).0.fired == c.fired + 1
  {
    hide Run;
    StaysArmed(Arm(c, mode == Solicited, mode == NextComp, missed).0, mode, actions);
  }

  /** Once it has fired it stays silent until it is armed again. */
  lemma {:induction false} SilentUntilArmed(c: Cq, actions: seq<Action>)
    requires c.hasNotified && forall i :: 0 <= i < |actions| ==> !actions[i].DoArm?
    ensures Run(c, actions).hasNotified && Run(c, actions).fired == c.fired
    decreases |actions|
  {
    hide Others;
    if actions != [] {
      SilentUntilArmed(c, actions[..|actions| - 1]);
    }
  }

  // ---------------------------------------------------------------------------
  // The object

  class Queue {
    const capacity: nat
    var entries: seq<Cqe>
    var free: nat
    var nrCqe: int
    var ok: bool
    var notify: Notify
    var hasNotified: bool
    var accepted: seq<Completion>
    var polled: seq<Cqe>
    var purged: set<nat>
    var fired: nat
    var arms: nat

    function View(): Cq
      reads this
    {
      Cq(capacity, entries, free, nrCqe, ok, notify, hasNotified, accepted, polled, purged, fired, arms)
    }

    constructor (capacity: nat)
      ensures View() == Fresh(capacity)
    {
      this.capacity := capacity;
      entries, free, nrCqe, ok, notify, hasNotified := [], capacity, 0, true, Never, true;
      accepted, polled, purged, fired, arms := [], [], {}, 0, 0;
    }

    method InsertWc(wc: Completion, solicited: bool) returns (ret: int)
      modifies this
      ensures (View(), ret) == Insert(old(View()), wc, solicited)
    {
      if !ok {
        return EACCES;
      }
      if free == 0 {
        ok := false;
        return ENOMEM;
      }
      free := free - 1;
      nrCqe := nrCqe + 1;
      entries := entries + [Cqe(|accepted|, wc)];
      accepted := accepted + [wc];
      if notify == NextComp || (notify == Solicited && solicited) {
        if !hasNotified {
          hasNotified := true;
          fired := fired + 1;
        }
      }
      return 0;
    }

    /** The polled completions are the oldest ones, in order. */
    method PollCq(wanted: int, wcs: array<Completion>) returns (ret: int)
      requires wanted <= wcs.Length
      modifies `entries, `free, `nrCqe, `polled, wcs
      ensures (View(), ret) == Poll(old(View()), wanted)
      ensures forall i :: 0 <= i < ret ==> wcs[i] == old(entries)[i].wc
      ensures forall i :: 0 <= i < wcs.Length && ret <= i ==> wcs[i] == old(wcs[i])
    {
      if !ok {
        return EACCES;
      }
      ghost var q := entries;
      var i := 0;
      while i < wanted && entries != []
        invariant 0 <= i <= |q| && (i == 0 || i <= wanted)
        invariant entries == q[i..] && polled == old(polled) + q[..i]
        invariant free == old(free) + i && nrCqe == old(nrCqe) - i
        invariant forall j :: 0 <= j < i ==> wcs[j] == q[j].wc
        invariant forall j :: i <= j < wcs.Length ==> wcs[j] == old(wcs[j])
      {
        assert q[..i + 1] == q[..i] + [entries[0]];
        wcs[i] := entries[0].wc;
        polled := polled + [entries[0]];
        entries := entries[1..];
        free := free + 1;
        nrCqe := nrCqe - 1;
        i := i + 1;
      }
      ret := i;
    }

    method RemoveQp(qp: nat) returns (count: int)
      modifies `entries, `free, `nrCqe, `purged
      ensures (View(), count) == Purge(old(View()), qp)
    {
      hide Others;
      count := 0;
      var kept: seq<Cqe> := [];
      OthersNone(qp);
      var i := 0;
      while i < |entries|
        invariant 0 <= i <= |entries|
        invariant kept == Others(entries[..i], qp) && count == i - |kept| && count >= 0
        invariant free == old(free) + count && nrCqe == old(nrCqe) - count
        invariant entries == old(entries) && purged == old(purged)
      {
        OthersStep(entries, i, qp);
        if entries[i].wc.qp == qp {
          nrCqe := nrCqe - 1;
          free := free + 1;
          count := count + 1;
        } else {
          kept := kept + [entries[i]];
        }
        i := i + 1;
      }
      assert entries[..i] == entries;
      entries := kept;
      purged := purged + {qp};
    }

    method RequestNotify(solicited: bool, next: bool, missed: bool) returns (ret: int)
      modifies this
      ensures (View(), ret) == Arm(old(View()), solicited, next, missed)
    {
      ret := 0;
      if !ok {
        return -1;
      }
      if solicited {
        notify := Solicited;
      } else if next {
        notify := NextComp;
      }
      if missed && entries != [] {
        ret := 1;
      }
      hasNotified := false;
      arms := arms + 1;
    }
  }
}
