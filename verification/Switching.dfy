/** When a writer ends the padding and with which command. */
module Switching {
  import opened Bytes
  import opened Detector
  import opened Framing
  import Records

  /** What one padded call decides: the command of each piece it frames, whether padding goes on,
      and whether it asks for raw copying. Pieces beyond the commands are sent as they are. */
  datatype Plan = Plan(commands: seq<Byte>, isPadding: bool, direct: bool)

  /** The command of a last frame. */
  function Terminator(d: Detection): Byte {
    if d.enableXtls then DIRECT else END
  }

  /** The start of an application data record. */
  predicate ApplicationData(b: Buffer) {
    |b| >= 6 && b[0] == 0x17 && b[1] == 0x03 && b[2] == 0x03
  }

  /** A piece of application data in a call that holds whole records only. */
  predicate EndsAt(d: Detection, complete: bool, b: Buffer) {
    d.isTls && |b| >= 6 && b[..3] == Records.APPLICATION_DATA && complete
  }

  lemma {:induction false} EndsAtData(d: Detection, complete: bool, b: Buffer)
    ensures EndsAt(d, complete, b) <==> d.isTls && complete && ApplicationData(b)
  {
    assert |b| >= 3 ==> b[..3] == [b[0], b[1], b[2]];
  }

  /** The traffic has shown no TLS 1.2 or 1.3 and the inspection is about to stop. */
  predicate EndsEarly(d: Detection) {
    !d.tls12orAbove && d.packetsLeft <= 1
  }

  /** The loop of WriteMultiBuffer, from some piece on. */
  function PlanFrom(d: Detection, complete: bool, pieces: seq<Buffer>, isPadding: bool): Plan
    decreases |pieces|
  {
    if pieces == [] then Plan([], isPadding, false)
    else if EndsAt(d, complete, pieces[0]) then
      var rest := PlanFrom(d, complete, pieces[1..], false);
      var command := if |pieces| == 1 then Terminator(d) else CONTINUE;
      Plan([command] + rest.commands, rest.isPadding, d.enableXtls || rest.direct)
    else if EndsEarly(d) then Plan([END], false, false)
    else
      var rest := PlanFrom(d, complete, pieces[1..], isPadding);
      var command := if |pieces| == 1 && !isPadding then Terminator(d) else CONTINUE;
      Plan([command] + rest.commands, rest.isPadding, rest.direct)
  }

  predicate AllContinue(commands: seq<Byte>) {
    forall i :: 0 <= i < |commands| ==> commands[i] == CONTINUE
  }

  /** Exactly one terminating command, and it comes last. */
  predicate EndsOnce(commands: seq<Byte>) {
    && commands != []
    && (forall i :: 0 <= i < |commands| - 1 ==> commands[i] == CONTINUE)
    && (Last(commands) == END || Last(commands) == DIRECT)
  }

  function Last(commands: seq<Byte>): Byte
    requires commands != []
  {
    commands[|commands| - 1]
  }

  lemma {:induction false} ContinueFirst(rest: seq<Byte>)
    ensures EndsOnce(rest) ==> EndsOnce([CONTINUE] + rest) && Last([CONTINUE] + rest) == Last(rest)
    ensures AllContinue(rest) ==> AllContinue([CONTINUE] + rest)
  {
  }

  /** Once the padding is to end, the rest of the call carries exactly one last command. */
  lemma {:induction false} EndingPlan(d: Detection, complete: bool, pieces: seq<Buffer>)
    requires Sound(d) && pieces != []
    ensures var plan := PlanFrom(d, complete, pieces, false);
      && !plan.isPadding && EndsOnce(plan.commands) && |plan.commands| <= |pieces|
      && (Last(plan.commands) == DIRECT <==> d.enableXtls)
      && (plan.direct ==> d.enableXtls)
      && (d.enableXtls ==> |plan.commands| == |pieces|)
    decreases |pieces|
  {
    var plan := PlanFrom(d, complete, pieces, false);
    if |pieces| == 1 {
      assert plan.commands == [Terminator(d)] || plan.commands == [END];
    } else if EndsAt(d, complete, pieces[0]) || !EndsEarly(d) {
      EndingPlan(d, complete, pieces[1..]);
      ContinueFirst(PlanFrom(d, complete, pieces[1..], false).commands);
    }
  }

  /** A call either goes on padding with Continue frames only, or its last frame, and no other, ends the
      padding; that frame says Direct if and only if the writer is to leave the outer connection, and
      then nothing follows it there. */
  ghost predicate Agreed(plan: Plan, pieces: seq<Buffer>) {
    && |plan.commands| <= |pieces|
    && (plan.isPadding ==> AllContinue(plan.commands) && !plan.direct && |plan.commands| == |pieces|)
    && (!plan.isPadding ==>
          && EndsOnce(plan.commands)
          && (Last(plan.commands) == DIRECT <==> plan.direct)
          && (plan.direct ==> |plan.commands| == |pieces|))
  }

  /** Switch agreement: so it is with every padded call. */
  lemma {:induction false} SwitchAgreement(d: Detection, complete: bool, pieces: seq<Buffer>)
    requires Sound(d)
    ensures Agreed(PlanFrom(d, complete, pieces, true), pieces)
    decreases |pieces|
  {
    if pieces != [] {
      var plan := PlanFrom(d, complete, pieces, true);
      if EndsAt(d, complete, pieces[0]) {
        if |pieces| == 1 {
          assert pieces[1..] == [] && PlanFrom(d, complete, [], false).commands == [];
          assert plan.commands == [Terminator(d)];
        } else {
          EndingPlan(d, complete, pieces[1..]);
          ContinueFirst(PlanFrom(d, complete, pieces[1..], false).commands);
        }
      } else if !EndsEarly(d) {
        SwitchAgreement(d, complete, pieces[1..]);
        ContinueFirst(PlanFrom(d, complete, pieces[1..], true).commands);
      }
    }
  }

  /** Padding ends in a call if and only if one of its pieces is application data in a call of whole
      records, or there is a piece and the inspection is about to stop without TLS 1.2 or later;
      raw copying is asked for if and only if such a piece is met with the right cipher suite seen. */
  lemma {:induction false} PaddingEndsExactly(d: Detection, complete: bool, pieces: seq<Buffer>)
    requires Sound(d)
    ensures var plan := PlanFrom(d, complete, pieces, true);
      var met := d.isTls && complete && exists b :: b in pieces && ApplicationData(b);
      && (!plan.isPadding <==> (pieces != [] && !d.tls12orAbove && d.packetsLeft <= 1) || met)
      && (plan.direct <==> d.enableXtls && met)
    decreases |pieces|
  {
    if pieces != [] {
      var first := pieces[0];
      EndsAtData(d, complete, first);
      if EndsAt(d, complete, first) {
        if |pieces| > 1 {
          EndingPlan(d, complete, pieces[1..]);
        }
        assert first in pieces;
      } else if !EndsEarly(d) {
        PaddingEndsExactly(d, complete, pieces[1..]);
        assert forall b :: b in pieces <==> b == first || b in pieces[1..];
      }
    }
  }

  /** Which pieces are framed: all, unless the inspection is about to stop without TLS 1.2 or later; then
      none behind the first that is not application data in a call of whole records. */
  lemma {:induction false} FramedExactly(d: Detection, complete: bool, pieces: seq<Buffer>, isPadding: bool)
    ensures var n := |PlanFrom(d, complete, pieces, isPadding).commands|;
      && n <= |pieces|
      && (forall k :: 0 <= k < n - 1 ==>
            (d.isTls && complete && ApplicationData(pieces[k])) || d.tls12orAbove || d.packetsLeft > 1)
      && (n < |pieces| ==> n > 0 && !d.tls12orAbove && d.packetsLeft <= 1
                           && !(d.isTls && complete && ApplicationData(pieces[n - 1])))
    decreases |pieces|
  {
    if pieces != [] {
      EndsAtData(d, complete, pieces[0]);
      if EndsAt(d, complete, pieces[0]) {
        FramedExactly(d, complete, pieces[1..], false);
      } else if !EndsEarly(d) {
        FramedExactly(d, complete, pieces[1..], isPadding);
      }
    }
  }

  /** Which frames are padded at length: application data in a call of whole records always, the others
      as long as TLS has been seen and no such piece has come before. */
  ghost predicate LongAt(d: Detection, complete: bool, pieces: seq<Buffer>, k: nat)
    requires k < |pieces|
  {
    d.isTls && ((complete && ApplicationData(pieces[k])) ||
                forall j :: 0 <= j < k ==> !(complete && ApplicationData(pieces[j])))
  }

  /** The first i commands of a plan are settled; the rest is what the loop decides from there. */
  ghost predicate Settled(plan: Plan, d: Detection, complete: bool, pieces: seq<Buffer>, i: nat, isPadding: bool,
                          direct: bool) {
    && i <= |pieces| && i <= |plan.commands|
    && var rest := PlanFrom(d, complete, pieces[i..], isPadding);
      && plan.commands[i..] == rest.commands
      && plan.isPadding == rest.isPadding && plan.direct == (direct || rest.direct)
  }

  /** One turn of the loop. */
  lemma {:induction false} SettleNext(plan: Plan, d: Detection, complete: bool, pieces: seq<Buffer>, i: nat,
                                      isPadding: bool, direct: bool)
    requires Settled(plan, d, complete, pieces, i, isPadding, direct) && i < |pieces|
    ensures i < |plan.commands|
    ensures EndsAt(d, complete, pieces[i]) ==>
      && plan.commands[i] == (if i == |pieces| - 1 then Terminator(d) else CONTINUE)
      && Settled(plan, d, complete, pieces, i + 1, false, direct || d.enableXtls)
    ensures !EndsAt(d, complete, pieces[i]) && EndsEarly(d) ==>
      && plan.commands[i] == END && |plan.commands| == i + 1
      && !plan.isPadding && plan.direct == direct
    ensures !EndsAt(d, complete, pieces[i]) && !EndsEarly(d) ==>
      && plan.commands[i] == (if i == |pieces| - 1 && !isPadding then Terminator(d) else CONTINUE)
      && Settled(plan, d, complete, pieces, i + 1, isPadding, direct)
  {
    assert pieces[i..][0] == pieces[i] && pieces[i..][1..] == pieces[i + 1..];
    var rest := PlanFrom(d, complete, pieces[i..], isPadding);
    assert plan.commands[i] == rest.commands[0];
    assert plan.commands[i + 1..] == rest.commands[1..];
  }

  /** When the pieces are used up so is the plan. */
  lemma {:induction false} SettledAll(plan: Plan, d: Detection, complete: bool, pieces: seq<Buffer>, isPadding: bool,
                                      direct: bool)
    requires Settled(plan, d, complete, pieces, |pieces|, isPadding, direct)
    ensures |plan.commands| == |pieces| && plan.isPadding == isPadding && plan.direct == direct
  {
    assert pieces[|pieces|..] == [];
  }
}
