/**
  Wire opcodes of the Reliable Connection service, the attribute table that classifies
  them, and the order check the responder applies to consecutive request packets.
 */
module OpCode {
  datatype OpCode =
    | SendFirst | SendMiddle | SendLast | SendLastImm | SendOnly | SendOnlyImm
    | WriteFirst | WriteMiddle | WriteLast | WriteLastImm | WriteOnly | WriteOnlyImm
    | ReadRequest | CompareSwap | FetchAdd
    | Acknowledge | ReadResponseFirst | ReadResponseMiddle | ReadResponseLast | ReadResponseOnly
    | AtomicAcknowledge

  /** A row of `attr_OpCode`: the four flag bits. */
  datatype Attr = Attr(starting: bool, middle: bool, ending: bool, acknowledge: bool)

  function AttrOf(op: OpCode): Attr {
    match op
    case SendFirst | WriteFirst => Attr(true, false, false, false)
    case SendMiddle | WriteMiddle => Attr(false, true, false, false)
    case SendLast | SendLastImm | WriteLast | WriteLastImm => Attr(false, false, true, false)
    case SendOnly | SendOnlyImm | WriteOnly | WriteOnlyImm | ReadRequest | CompareSwap | FetchAdd =>
      Attr(true, false, true, false)
    case _ => Attr(false, false, false, true)
  }

  /** pib_opcode_is_in_order_sequence. */
  predicate InOrder(op: OpCode, last: OpCode) {
    var attr := AttrOf(op);
    if !attr.starting && !attr.middle && !attr.ending then false
    else if attr.starting then AttrOf(last).ending
    else match op
      case SendMiddle | SendLast | SendLastImm => last == SendFirst || last == SendMiddle
      case WriteMiddle | WriteLast | WriteLastImm => last == WriteFirst || last == WriteMiddle
      case _ => false
  }

  /** The dummy opcode a reset queue pair starts from. */
  const RESET_OPCODE := SendOnly

  /** The opcode remembered after accepting `ops` from the reset value. */
  function LastOf(ops: seq<OpCode>): OpCode {
    if ops == [] then RESET_OPCODE else ops[|ops| - 1]
  }

  /** Every packet of `ops` passes the order check. */
  predicate Accepts(ops: seq<OpCode>) {
    forall i :: 0 <= i < |ops| ==> InOrder(ops[i], LastOf(ops[..i]))
  }

  // ---------------------------------------------------------------------------
  // The language of whole messages, defined without the order check

  datatype Family = SendFamily | WriteFamily

  function FirstOf(f: Family): OpCode { if f.SendFamily? then SendFirst else WriteFirst }
  function MiddleOf(f: Family): OpCode { if f.SendFamily? then SendMiddle else WriteMiddle }
  predicate IsLastOf(op: OpCode, f: Family) {
    if f.SendFamily? then op == SendLast || op == SendLastImm else op == WriteLast || op == WriteLastImm
  }
  predicate IsSingle(op: OpCode) {
    op in {SendOnly, SendOnlyImm, WriteOnly, WriteOnlyImm, ReadRequest, CompareSwap, FetchAdd}
  }

  /** FIRST MIDDLE* of one family. */
  predicate IsOpening(s: seq<OpCode>, f: Family) {
    |s| > 0 && s[0] == FirstOf(f) && forall i :: 1 <= i < |s| ==> s[i] == MiddleOf(f)
  }

  /** ONLY, or FIRST MIDDLE* LAST of one family. */
  predicate IsMessageOf(s: seq<OpCode>, f: Family) {
    |s| >= 2 && IsOpening(s[..|s| - 1], f) && IsLastOf(s[|s| - 1], f)
  }
  predicate IsMessage(s: seq<OpCode>) {
    || (|s| == 1 && IsSingle(s[0]))
    || IsMessageOf(s, SendFamily)
    || IsMessageOf(s, WriteFamily)
  }

  predicate IsUnfinished(s: seq<OpCode>) {
    s == [] || IsOpening(s, SendFamily) || IsOpening(s, WriteFamily)
  }

  function Concat(messages: seq<seq<OpCode>>): seq<OpCode> {
    if messages == [] then [] else Concat(messages[..|messages| - 1]) + messages[|messages| - 1]
  }

  /** `ops` is made of the complete `messages` and one unfinished `tail`. */
  predicate SplitsInto(ops: seq<OpCode>, messages: seq<seq<OpCode>>, tail: seq<OpCode>) {
    && (forall i :: 0 <= i < |messages| ==> IsMessage(messages[i]))
    && IsUnfinished(tail)
    && ops == Concat(messages) + tail
  }

  // ---------------------------------------------------------------------------

  lemma AcceptsPrefix(ops: seq<OpCode>, k: nat)
    requires Accepts(ops) && k <= |ops|
    ensures Accepts(ops[..k])
  {
    forall i | 0 <= i < k ensures InOrder(ops[..k][i], LastOf(ops[..k][..i])) {
      assert ops[..k][..i] == ops[..i];
    }
  }

  lemma AcceptsAppend(ops: seq<OpCode>, op: OpCode)
    requires Accepts(ops) && InOrder(op, LastOf(ops))
    ensures Accepts(ops + [op])
  {
    var all := ops + [op];
    forall i | 0 <= i < |all| ensures InOrder(all[i], LastOf(all[..i])) {
      assert all[..i] == if i < |ops| then ops[..i] else ops;
    }
  }

  lemma {:induction false} ConcatEndsMessage(messages: seq<seq<OpCode>>)
    requires forall i :: 0 <= i < |messages| ==> IsMessage(messages[i])
    ensures AttrOf(LastOf(Concat(messages))).ending
  {
    if messages != [] {
      var m := messages[|messages| - 1];
      assert LastOf(Concat(messages)) == m[|m| - 1];
    }
  }

  lemma LastOfJoin(a: seq<OpCode>, b: seq<OpCode>)
    ensures LastOf(a + b) == if b == [] then LastOf(a) else LastOf(b)
  {
    if b == [] {
      assert a + b == a;
    }
  }

  lemma CloseMessage(messages: seq<seq<OpCode>>, m: seq<OpCode>)
    requires forall i :: 0 <= i < |messages| ==> IsMessage(messages[i])
    requires IsMessage(m)
    ensures SplitsInto(Concat(messages) + m, messages + [m], [])
  {
    assert (messages + [m])[..|messages|] == messages;
    assert Concat(messages + [m]) + [] == Concat(messages) + m;
  }

  /** A starting opcode can only follow a finished message. */
  lemma StartSplits(messages: seq<seq<OpCode>>, tail: seq<OpCode>, op: OpCode)
    returns (messages': seq<seq<OpCode>>, tail': seq<OpCode>)
    requires SplitsInto(Concat(messages) + tail, messages, tail)
    requires AttrOf(op).starting && InOrder(op, LastOf(Concat(messages) + tail))
    ensures SplitsInto(Concat(messages) + tail + [op], messages', tail')
  {
    LastOfJoin(Concat(messages), tail);
    assert Concat(messages) + tail + [op] == Concat(messages) + [op];
    if IsSingle(op) {
      assert IsMessage([op]);
      CloseMessage(messages, [op]);
      messages', tail' := messages + [[op]], [];
    } else {
      messages', tail' := messages, [op];
    }
  }

  /** The family whose unfinished message a middle or last opcode continues. */
  function FamilyOf(op: OpCode): Family {
    if op in {SendMiddle, SendLast, SendLastImm} then SendFamily else WriteFamily
  }

  lemma ContinuesOwn(tail: seq<OpCode>, op: OpCode)
    requires IsUnfinished(tail) && tail != [] && !AttrOf(op).starting && InOrder(op, LastOf(tail))
    ensures IsOpening(tail, FamilyOf(op))
    ensures if AttrOf(op).middle then op == MiddleOf(FamilyOf(op)) else IsLastOf(op, FamilyOf(op))
  {
  }

  lemma NeedsOpening(last: OpCode, op: OpCode)
    requires !AttrOf(op).starting && InOrder(op, last)
    ensures !AttrOf(last).ending
  {
  }

  lemma OpeningGrows(tail: seq<OpCode>, op: OpCode, f: Family)
    requires IsOpening(tail, f)
    ensures op == MiddleOf(f) ==> IsOpening(tail + [op], f)
    ensures IsLastOf(op, f) ==> IsMessageOf(tail + [op], f)
  {
    assert (tail + [op])[..|tail|] == tail;
  }

  lemma EitherFamily(s: seq<OpCode>, f: Family)
    ensures IsOpening(s, f) ==> IsUnfinished(s)
    ensures IsMessageOf(s, f) ==> IsMessage(s)
  {
    hide IsOpening, IsMessageOf;
  }

  /** A middle or last opcode continues the unfinished message of its own family. */
  lemma ContinueSplits(messages: seq<seq<OpCode>>, tail: seq<OpCode>, op: OpCode)
    returns (messages': seq<seq<OpCode>>, tail': seq<OpCode>)
    requires SplitsInto(Concat(messages) + tail, messages, tail)
    requires !AttrOf(op).starting && InOrder(op, LastOf(Concat(messages) + tail))
    ensures SplitsInto(Concat(messages) + tail + [op], messages', tail')
  {
    hide AttrOf, InOrder, IsOpening, IsMessageOf, IsLastOf, MiddleOf, FamilyOf, LastOf;
    ConcatEndsMessage(messages);
    LastOfJoin(Concat(messages), tail);
    NeedsOpening(LastOf(Concat(messages) + tail), op);
    ContinuesOwn(tail, op);
    OpeningGrows(tail, op, FamilyOf(op));
    var m := tail + [op];
    EitherFamily(m, FamilyOf(op));
    assert Concat(messages) + tail + [op] == Concat(messages) + m;
    if AttrOf(op).middle {
      messages', tail' := messages, m;
    } else {
      CloseMessage(messages, m);
      messages', tail' := messages + [m], [];
    }
  }

  lemma EmptySplits()
    ensures SplitsInto([], [], [])
  {
    hide IsMessage;
  }

  lemma OneMoreSplits(ops: seq<OpCode>, messages: seq<seq<OpCode>>, tail: seq<OpCode>, op: OpCode)
    returns (messages': seq<seq<OpCode>>, tail': seq<OpCode>)
    requires SplitsInto(ops, messages, tail) && InOrder(op, LastOf(ops))
    ensures SplitsInto(ops + [op], messages', tail')
  {
    hide AttrOf, InOrder, IsMessage, IsUnfinished;
    if AttrOf(op).starting {
      messages', tail' := StartSplits(messages, tail, op);
    } else {
      messages', tail' := ContinueSplits(messages, tail, op);
    }
  }

  lemma {:induction false} AcceptedSplits(ops: seq<OpCode>)
    returns (messages: seq<seq<OpCode>>, tail: seq<OpCode>)
    requires Accepts(ops)
    ensures SplitsInto(ops, messages, tail)
  {
    hide SplitsInto, InOrder, AttrOf;
    if ops == [] {
      messages, tail := [], [];
      EmptySplits();
    } else {
      var prefix, op := ops[..|ops| - 1], ops[|ops| - 1];
      AcceptsPrefix(ops, |ops| - 1);
      messages, tail := AcceptedSplits(prefix);
      assert ops == prefix + [op];
      messages, tail := OneMoreSplits(prefix, messages, tail, op);
    }
  }

  lemma {:induction false} OpeningAccepted(ops: seq<OpCode>, t: seq<OpCode>, f: Family)
    requires Accepts(ops) && AttrOf(LastOf(ops)).ending && IsOpening(t, f)
    ensures Accepts(ops + t)
  {
    var u := t[..|t| - 1];
    assert ops + t == (ops + u) + [t[|t| - 1]];
    if u == [] {
      assert ops + u == ops;
    } else {
      OpeningAccepted(ops, u, f);
      assert LastOf(ops + u) == u[|u| - 1];
    }
    AcceptsAppend(ops + u, t[|t| - 1]);
  }

  lemma FamilyMessageAccepted(ops: seq<OpCode>, u: seq<OpCode>, op: OpCode, f: Family)
    requires Accepts(ops) && AttrOf(LastOf(ops)).ending
    requires IsOpening(u, f) && IsLastOf(op, f)
    ensures Accepts(ops + u + [op])
  {
    OpeningAccepted(ops, u, f);
    LastOfJoin(ops, u);
    assert LastOf(u) == FirstOf(f) || LastOf(u) == MiddleOf(f);
    AcceptsAppend(ops + u, op);
  }

  lemma MessageAccepted(ops: seq<OpCode>, m: seq<OpCode>)
    requires Accepts(ops) && AttrOf(LastOf(ops)).ending && IsMessage(m)
    ensures Accepts(ops + m)
  {
    var u, op := m[..|m| - 1], m[|m| - 1];
    assert ops + m == ops + u + [op];
    if |m| == 1 {
      assert ops + u == ops;
      AcceptsAppend(ops, op);
    } else if IsMessageOf(m, SendFamily) {
      FamilyMessageAccepted(ops, u, op, SendFamily);
    } else {
      FamilyMessageAccepted(ops, u, op, WriteFamily);
    }
  }

  lemma {:induction false} SplitAccepted(ops: seq<OpCode>, messages: seq<seq<OpCode>>, tail: seq<OpCode>)
    requires SplitsInto(ops, messages, tail)
    ensures Accepts(ops)
    decreases |messages|
  {
    ConcatEndsMessage(messages);
    if messages != [] {
      var n := |messages| - 1;
      SplitAccepted(Concat(messages[..n]), messages[..n], []);
      ConcatEndsMessage(messages[..n]);
      MessageAccepted(Concat(messages[..n]), messages[n]);
    }
    if tail == [] {
      assert ops == Concat(messages);
    } else {
      OpeningAccepted(Concat(messages), tail, if IsOpening(tail, SendFamily) then SendFamily else WriteFamily);
    }
  }

  /** From the reset value the order check accepts exactly whole messages plus one unfinished message. */
  lemma AcceptedLanguage(ops: seq<OpCode>)
    ensures Accepts(ops) <==> exists messages, tail :: SplitsInto(ops, messages, tail)
  {
    if Accepts(ops) {
      var messages, tail := AcceptedSplits(ops);
    }
    forall messages, tail | SplitsInto(ops, messages, tail) ensures Accepts(ops) {
      SplitAccepted(ops, messages, tail);
    }
  }
}
