/** What the parties make of a frame that they read, byte for byte, and what refusing
    comes to: whoever says no sends the rejection and nothing else, the peer that reads it
    fails, and no side ever returns Ok without the consent of both. */
module HandshakeRefusal {
  import opened Common
  import opened FrameCodec
  import opened FrameLaws
  import opened Handshake

  // -------------------------------------------------------------------------
  // The invitation
  // -------------------------------------------------------------------------

  function KeyOf(e: Entry): nat { e.optsKey % 0x10 }

  /** Entry `i` of an invitation has a basic key, no earlier entry has the same, and its
      value is not zero. */
  predicate Passes(invite: seq<Entry>, i: nat)
    requires i < |invite|
  {
    KeyOf(invite[i]) < 4 && invite[i].val != 0 && forall j :: 0 <= j < i ==> KeyOf(invite[j]) != KeyOf(invite[i])
  }

  ghost predicate SeenSoFar(invite: seq<Entry>, i: nat, seen: Values)
    requires i <= |invite|
  {
    forall k :: 0 <= k < 4 ==> (seen[k].Some? <==> exists j :: 0 <= j < i && KeyOf(invite[j]) == k)
  }

  lemma {:induction false} VerdictFrom(invite: seq<Entry>, i: nat, seen: Values)
    requires i <= |invite| && SeenSoFar(invite, i, seen)
    ensures Propose(invite, i, seen).Ok? ==> forall j :: i <= j < |invite| ==> Passes(invite, j)
    ensures Propose(invite, i, seen).Err? ==>
      exists j :: i <= j < |invite| && FirstBad(invite, i, j, Propose(invite, i, seen).error)
    decreases |invite| - i
  {
    if i < |invite| {
      var more := if KeyOf(invite[i]) < 4 then seen[KeyOf(invite[i]) := Some(invite[i].val)] else seen;
      FirstEntry(invite, i, seen);
      hide SeenSoFar, Passes, FirstBad, Propose;
      if Passes(invite, i) {
        VerdictFrom(invite, i + 1, more);
        if Propose(invite, i + 1, more).Err? {
          var j :| i + 1 <= j < |invite| && FirstBad(invite, i + 1, j, Propose(invite, i + 1, more).error);
          BadLater(invite, i, j, Propose(invite, i + 1, more).error);
        }
      }
    }
  }

  lemma FirstEntry(invite: seq<Entry>, i: nat, seen: Values)
    requires i < |invite| && SeenSoFar(invite, i, seen)
    ensures if Passes(invite, i) then
        var more := seen[KeyOf(invite[i]) := Some(invite[i].val)];
        SeenSoFar(invite, i + 1, more) && Propose(invite, i, seen) == Propose(invite, i + 1, more)
      else Propose(invite, i, seen).Err? && FirstBad(invite, i, i, Propose(invite, i, seen).error)
  {
    var key := KeyOf(invite[i]);
    if Passes(invite, i) {
      SeenOneMore(invite, i, seen);
    } else if key < 4 && invite[i].val != 0 {
      assert exists j :: 0 <= j < i && KeyOf(invite[j]) == key;
      assert seen[key].Some?;
    }
  }

  lemma BadLater(invite: seq<Entry>, i: nat, j: nat, e: HandshakeError)
    requires i < j < |invite| && Passes(invite, i) && FirstBad(invite, i + 1, j, e)
    ensures FirstBad(invite, i, j, e)
  {
    hide Passes;
  }

  lemma SeenOneMore(invite: seq<Entry>, i: nat, seen: Values)
    requires i < |invite| && SeenSoFar(invite, i, seen) && KeyOf(invite[i]) < 4
    ensures SeenSoFar(invite, i + 1, seen[KeyOf(invite[i]) := Some(invite[i].val)])
  {
    var key := KeyOf(invite[i]);
    var more := seen[key := Some(invite[i].val)];
    forall k | 0 <= k < 4 ensures more[k].Some? <==> exists j :: 0 <= j < i + 1 && KeyOf(invite[j]) == k {
      if k == key { assert KeyOf(invite[i]) == k; }
      else if exists j :: 0 <= j < i + 1 && KeyOf(invite[j]) == k {
        var j :| 0 <= j < i + 1 && KeyOf(invite[j]) == k;
        assert j < i;
      }
    }
  }

  /** Entry `j` is the first from `i` on that does not pass, and `e` says why. */
  ghost predicate FirstBad(invite: seq<Entry>, i: nat, j: nat, e: HandshakeError)
    requires i <= j < |invite|
  {
    && !Passes(invite, j) && (forall k :: i <= k < j ==> Passes(invite, k))
    && e == if KeyOf(invite[j]) >= 4 then HandshakeError.UnsupportedOption else HandshakeError.MalformedBody
  }

  /** Which invitations pass, exactly; the first bad entry gives the error. */
  lemma ProposePasses(invite: seq<Entry>)
    ensures Propose(invite, 0, EMPTY).Ok? <==> forall i :: 0 <= i < |invite| ==> Passes(invite, i)
    ensures Propose(invite, 0, EMPTY).Err? ==>
      exists j :: 0 <= j < |invite| && FirstBad(invite, 0, j, Propose(invite, 0, EMPTY).error)
  {
    VerdictFrom(invite, 0, EMPTY);
  }

  // -------------------------------------------------------------------------
  // One frame read
  // -------------------------------------------------------------------------

  /** The stream holds a whole frame that a builder wrote, and whatever follows it. */
  ghost predicate Holds(c: Checksums, stream: Bytes, magic: Magic, values: Values, rest: Bytes, max: nat) {
    IsMagic(magic) && NoZero(values) && max >= 43 && stream == Build(c, magic, values) + rest
  }

  lemma ReadsFrame(c: Checksums, stream: Bytes, magic: Magic, values: Values, rest: Bytes, max: nat)
    requires Holds(c, stream, magic, values, rest, max)
    ensures Received(c, stream, max).Ok?
    ensures var (frame, n) := Received(c, stream, max).value;
      frame.magic == magic && ValuesOf(frame.entries) == values && Drop(stream, n) == rest
  {
    var f := Build(c, magic, values);
    BuiltLength(c, magic, values);
    hide Build, Parse;
    RoundTrip(c, magic, values, rest, 43);
    LargerLimit(c, stream, 43, max);
    assert (f + rest)[|f|..] == rest;
  }

  /** What the responder makes of the first frame: it takes it and no byte more; anything
      but an invitation makes it fail without a word; a refused one is answered with the
      rejection; an accepted one with the settled values. */
  lemma Answered(cfg: Config, s: Joint, magic: Magic, values: Values, rest: Bytes, accepts: bool, room: nat)
    requires s.r.RStart? && Holds(cfg.c, s.toR, magic, values, rest, cfg.rMax)
    ensures Enabled(cfg, s, Answer(accepts, room))
    ensures Step(cfg, s, Answer(accepts, room)) ==
      if magic != INVITE then Joint(s.i, RFailed(HandshakeError.InvalidMagic), rest, s.toI)
      else if !accepts then Joint(s.i, RFailed(Rejected), rest, s.toI + Sent(Rejection(cfg), room))
      else
        var settled := Settle(cfg.local, values);
        Joint(s.i, AwaitConfirm(settled), rest, s.toI + Sent(Build(cfg.c, ACCEPT, settled), room))
  {
    ReadsFrame(cfg.c, s.toR, magic, values, rest, cfg.rMax);
    hide Received, Holds, Build, Settle;
  }

  /** What the initiator makes of the answer: a rejection or a wrong frame makes it fail
      without a word; an acceptance that leaves a value open, or that its caller refuses,
      is answered with the rejection; another one with the same values. */
  lemma Confirmed(cfg: Config, s: Joint, magic: Magic, values: Values, rest: Bytes, accepts: bool, room: nat)
    requires s.i.AwaitAccept? && Holds(cfg.c, s.toI, magic, values, rest, cfg.iMax)
    ensures Enabled(cfg, s, Confirm(accepts, room))
    ensures Step(cfg, s, Confirm(accepts, room)) ==
      if magic == REJECT then Joint(IFailed(PeerRejected), s.r, s.toR, rest)
      else if magic != ACCEPT then Joint(IFailed(HandshakeError.InvalidMagic), s.r, s.toR, rest)
      else if !IsComplete(values) then Joint(IFailed(Inconsistent), s.r, s.toR + Sent(Rejection(cfg), room), rest)
      else if !accepts then Joint(IFailed(Rejected), s.r, s.toR + Sent(Rejection(cfg), room), rest)
      else Joint(AwaitDone(values), s.r, s.toR + Sent(Build(cfg.c, CONFRM, values), room), rest)
  {
    ReadsFrame(cfg.c, s.toI, magic, values, rest, cfg.iMax);
    hide Received, Holds, Build;
  }

  /** What the responder makes of the confirmation: a wrong frame, and one with other
      values than it answered with, is answered with the rejection; only those very values
      let it return Ok, after the empty confirmation. */
  lemma Committed(cfg: Config, s: Joint, magic: Magic, values: Values, rest: Bytes, room: nat)
    requires s.r.AwaitConfirm? && IsComplete(s.r.answered)
    requires Holds(cfg.c, s.toR, magic, values, rest, cfg.rMax)
    ensures Enabled(cfg, s, Commit(room))
    ensures Step(cfg, s, Commit(room)) ==
      if magic != CONFRM then
        Joint(s.i, RFailed(HandshakeError.InvalidMagic), rest, s.toI + Sent(Rejection(cfg), room))
      else if values != s.r.answered then Joint(s.i, RFailed(Inconsistent), rest, s.toI + Sent(Rejection(cfg), room))
      else Joint(s.i, ROk(ValuesToBasic(values)), rest, s.toI + Sent(Done(cfg), room))
  {
    ReadsFrame(cfg.c, s.toR, magic, values, rest, cfg.rMax);
    ConfirmsExactly(Received(cfg.c, s.toR, cfg.rMax).value.0.entries, s.r.answered);
    hide Received, Holds, Build, ConfirmMatches;
  }

  /** What the initiator makes of the last frame: only an empty confirmation lets it
      return Ok; it never writes again. */
  lemma Finished(cfg: Config, s: Joint, magic: Magic, values: Values, rest: Bytes)
    requires s.i.AwaitDone? && Holds(cfg.c, s.toI, magic, values, rest, cfg.iMax)
    ensures Enabled(cfg, s, Finish)
    ensures Step(cfg, s, Finish) ==
      if magic != CONFRM then Joint(IFailed(HandshakeError.InvalidMagic), s.r, s.toR, rest)
      else if values != EMPTY then Joint(IFailed(Inconsistent), s.r, s.toR, rest)
      else Joint(IOk(ValuesToBasic(s.i.accepted)), s.r, s.toR, rest)
  {
    ReadsFrame(cfg.c, s.toI, magic, values, rest, cfg.iMax);
    NothingMeansEmpty(Received(cfg.c, s.toI, cfg.iMax).value.0.entries);
    hide Received, Holds, Build;
  }

  lemma NothingMeansEmpty(entries: Entries)
    ensures ValuesOf(entries) == EMPTY <==> entries == [None, None, None, None]
  {
    forall k | 0 <= k < 4 ensures ValuesOf(entries)[k].None? <==> entries[k].None? {}
  }

  /** Its first act: it sends what its invitation names, or fails without a word. */
  lemma Invited(cfg: Config, s: Joint, room: nat)
    requires s.i.IStart?
    ensures Enabled(cfg, s, SendInvite(room))
    ensures var s' := Step(cfg, s, SendInvite(room));
      if forall i :: 0 <= i < |cfg.invite| ==> Passes(cfg.invite, i)
      then s' == Joint(AwaitAccept, s.r, s.toR + Sent(Invitation(cfg), room), s.toI)
      else s'.i.IFailed? && s' == Joint(s'.i, s.r, s.toR, s.toI)
  {
    ProposePasses(cfg.invite);
    hide Propose, Passes, Build;
  }

  predicate Reads(a: Act) { a.Answer? || a.Confirm? || a.Commit? || a.Finish? }

  /** Whether the responder is the one that acts. */
  predicate Responds(a: Act) { a.Answer? || a.Commit? }

  /** A stream that gives no frame makes its reader fail with the reason, in every state
      and without a word. */
  lemma Unread(cfg: Config, s: Joint, a: Act)
    requires Reads(a) && Enabled(cfg, s, a)
    requires (if Responds(a) then Received(cfg.c, s.toR, cfg.rMax) else Received(cfg.c, s.toI, cfg.iMax)).Err?
    ensures Step(cfg, s, a) ==
      if Responds(a) then s.(r := RFailed(Received(cfg.c, s.toR, cfg.rMax).error))
      else s.(i := IFailed(Received(cfg.c, s.toI, cfg.iMax).error))
  {
    hide Received;
  }

  /** A party that gives up fails with its own reason, and without a word. */
  lemma GivesUp(cfg: Config, s: Joint, why: HandshakeError)
    ensures Enabled(cfg, s, GiveUpI(why)) ==> Step(cfg, s, GiveUpI(why)) == Joint(IFailed(why), s.r, s.toR, s.toI)
    ensures Enabled(cfg, s, GiveUpR(why)) ==> Step(cfg, s, GiveUpR(why)) == Joint(s.i, RFailed(why), s.toR, s.toI)
  {}

  // -------------------------------------------------------------------------
  // Consent
  // -------------------------------------------------------------------------

  /** The initiator failed and never sent its confirmation: what it sent is a front of the
      invitation, or, to a responder that has answered, a front of the rejection. */
  ghost predicate Doomed(cfg: Config, s: Joint) {
    && s.i.IFailed?
    && match s.r
       case RStart => s.toR <= Invitation(cfg)
       case AwaitConfirm(_) => s.toR <= Rejection(cfg)
       case ROk(_) => false
       case RFailed(_) => true
  }

  lemma DoomedStays(cfg: Config, s: Joint, a: Act)
    requires Doomed(cfg, s) && Enabled(cfg, s, a)
    ensures Doomed(cfg, Step(cfg, s, a))
  {
    hide Build, Received, Propose, Settle;
    if a.Answer? { ReceiveFront(cfg.c, INVITE, Proposed(cfg), s.toR, cfg.rMax); }
    if a.Commit? { ReceiveFront(cfg.c, REJECT, EMPTY, s.toR, cfg.rMax); }
  }

  lemma {:induction false} DoomedForever(cfg: Config, s: Joint, acts: seq<Act>)
    requires Doomed(cfg, s) && Runs(cfg, s, acts)
    ensures Doomed(cfg, Run(cfg, s, acts))
    decreases |acts|
  {
    if acts != [] {
      DoomedStays(cfg, s, acts[0]);
      hide Doomed, Step, Enabled;
      DoomedForever(cfg, Step(cfg, s, acts[0]), acts[1..]);
    }
  }

  /** Nobody has confirmed yet, or nobody ever will. */
  ghost predicate Unconfirmed(cfg: Config, s: Joint) {
    s.i.IStart? || s.i.AwaitAccept? || Doomed(cfg, s)
  }

  /** Nothing but the consent of the initiator's caller changes that, and its refusal
      settles it. */
  lemma OnlyConsentConfirms(cfg: Config, s: Joint, a: Act)
    requires Inv(cfg, s) && Unconfirmed(cfg, s) && Enabled(cfg, s, a) && !(a.Confirm? && a.accepts)
    ensures Unconfirmed(cfg, Step(cfg, s, a))
    ensures a.Confirm? ==> Doomed(cfg, Step(cfg, s, a))
  {
    if Doomed(cfg, s) {
      DoomedStays(cfg, s, a);
    } else {
      hide Build, Received, Propose, Settle;
      ReceiveNothing(cfg.c, cfg.iMax);
      Appended(Sent(Rejection(cfg), if a.Confirm? then a.room else 0));
    }
  }

  predicate Confirms(a: Act) { a.Confirm? && a.accepts }
  predicate Refuses(a: Act) { (a.Confirm? || a.Answer?) && !a.accepts }

  lemma {:induction false} NoConsentNoConfirmation(cfg: Config, s: Joint, acts: seq<Act>)
    requires Inv(cfg, s) && Unconfirmed(cfg, s) && Runs(cfg, s, acts)
    requires forall k :: 0 <= k < |acts| ==> !Confirms(acts[k])
    ensures Inv(cfg, Run(cfg, s, acts)) && Unconfirmed(cfg, Run(cfg, s, acts))
    decreases |acts|
  {
    if acts != [] {
      assert !Confirms(acts[0]);
      StepKeeps(cfg, s, acts[0]);
      OnlyConsentConfirms(cfg, s, acts[0]);
      hide Unconfirmed, Inv, Step, Enabled;
      NoConsentNoConfirmation(cfg, Step(cfg, s, acts[0]), acts[1..]);
    }
  }

  predicate Accepts(a: Act) { a.Answer? && a.accepts }

  lemma {:induction false} NoConsentNoAnswer(cfg: Config, s: Joint, acts: seq<Act>)
    requires (s.r.RStart? || s.r.RFailed?) && Runs(cfg, s, acts)
    requires forall k :: 0 <= k < |acts| ==> !Accepts(acts[k])
    ensures var s' := Run(cfg, s, acts); s'.r.RStart? || s'.r.RFailed?
    decreases |acts|
  {
    if acts != [] {
      assert !Accepts(acts[0]);
      hide Build, Received, Propose, Settle;
      NoConsentNoAnswer(cfg, Step(cfg, s, acts[0]), acts[1..]);
    }
  }

  lemma {:induction false} FailedForever(cfg: Config, s: Joint, acts: seq<Act>)
    requires s.r.RFailed? && Runs(cfg, s, acts)
    ensures Run(cfg, s, acts).r == s.r
    decreases |acts|
  {
    if acts != [] {
      hide Build, Received, Propose, Settle;
      FailedForever(cfg, Step(cfg, s, acts[0]), acts[1..]);
    }
  }

  /** Neither side has returned Ok. */
  predicate NoneOk(s: Joint) { !s.i.IOk? && !s.r.ROk? }

  lemma {:induction false} RefusalIsFinal(cfg: Config, s: Joint, acts: seq<Act>, k: nat)
    requires Inv(cfg, s) && Runs(cfg, s, acts) && k < |acts| && Refuses(acts[k])
    ensures NoneOk(Run(cfg, s, acts))
    decreases |acts|
  {
    var a := acts[0];
    var s' := Step(cfg, s, a);
    RunKeeps(cfg, s, acts);
    StepKeeps(cfg, s, a);
    if k > 0 {
      hide Inv, Step, Enabled;
      RefusalIsFinal(cfg, s', acts[1..], k - 1);
    } else if a.Confirm? {
      OnlyConsentConfirms(cfg, s, a);
      DoomedForever(cfg, s', acts[1..]);
      hide Step, Enabled, Run;
    } else {
      assert s'.r.RFailed? by { RefusedAnswer(cfg, s, a); }
      FailedForever(cfg, s', acts[1..]);
      hide Step, Enabled;
    }
  }

  lemma RefusedAnswer(cfg: Config, s: Joint, a: Act)
    requires Enabled(cfg, s, a) && a.Answer? && !a.accepts
    ensures Step(cfg, s, a).r.RFailed?
  {
    hide Build, Received, Settle;
  }

  /** Consent, over every joint run, whatever the limits, the failures and the frames cut
      short: a side that returns Ok has the consent of both callers behind it, and once
      either caller has said no, neither side ever returns Ok. */
  lemma OkNeedsConsent(cfg: Config, acts: seq<Act>)
    requires Runs(cfg, START, acts)
    ensures !NoneOk(Run(cfg, START, acts)) ==>
      && (exists k :: 0 <= k < |acts| && Confirms(acts[k])) && (exists k :: 0 <= k < |acts| && Accepts(acts[k]))
    ensures (exists k :: 0 <= k < |acts| && Refuses(acts[k])) ==> NoneOk(Run(cfg, START, acts))
  {
    RunKeeps(cfg, START, acts);
    if forall k :: 0 <= k < |acts| ==> !Confirms(acts[k]) { NoConsentNoConfirmation(cfg, START, acts); }
    if forall k :: 0 <= k < |acts| ==> !Accepts(acts[k]) { NoConsentNoAnswer(cfg, START, acts); }
    if exists k :: 0 <= k < |acts| && Refuses(acts[k]) {
      var k :| 0 <= k < |acts| && Refuses(acts[k]);
      RefusalIsFinal(cfg, START, acts, k);
    }
  }

  // -------------------------------------------------------------------------
  // The rejection is read
  // -------------------------------------------------------------------------

  /** The reason of a peer that reads what was sent of a rejection, as the initiator does
      it and as the responder does. */
  function AfterRejection(cfg: Config, room: nat, whole: HandshakeError): HandshakeError {
    if room < |Rejection(cfg)| then PeerClosed else whole
  }

  lemma RejectionRead(cfg: Config, room: nat, max: nat)
    requires max >= 43
    ensures if room < |Rejection(cfg)|
      then Received(cfg.c, Sent(Rejection(cfg), room), max) == Err(PeerClosed)
      else Holds(cfg.c, Sent(Rejection(cfg), room), REJECT, EMPTY, [], max)
  {
    NothingIsNoZero();
    var f := Rejection(cfg);
    var b := Sent(f, room);
    hide Build, Received;
    if room < |f| {
      ReceiveFront(cfg.c, REJECT, EMPTY, b, max);
      assert |b| < |f|;
    } else {
      assert b == f && f + [] == f;
    }
  }

  /** A refusing responder: in place of the acceptance a front of the rejection goes out,
      the whole of it when there is room, and the initiator that reads it fails as the one
      that was rejected, or as one whose peer is gone. */
  lemma RefusedByResponder(cfg: Config, room: nat, accepts: bool, more: nat)
    requires Valid(cfg)
    ensures var s := Stage(cfg, 1, Invitation(cfg));
      && Enabled(cfg, s, Answer(false, room))
      && var s' := Step(cfg, s, Answer(false, room));
      && s' == Joint(AwaitAccept, RFailed(Rejected), [], Sent(Rejection(cfg), room))
      && Enabled(cfg, s', Confirm(accepts, more))
      && Step(cfg, s', Confirm(accepts, more)).i == IFailed(AfterRejection(cfg, room, PeerRejected))
      && Step(cfg, s', Confirm(accepts, more)).toR == []
  {
    var s := Stage(cfg, 1, Invitation(cfg));
    ValidValues(cfg);
    hide Build, Received, Propose, Settle, NoZero;
    assert Invitation(cfg) + [] == Invitation(cfg);
    assert Holds(cfg.c, s.toR, INVITE, Proposed(cfg), [], cfg.rMax);
    Answered(cfg, s, INVITE, Proposed(cfg), [], false, room);
    Appended(Sent(Rejection(cfg), room));
    var s' := Joint(AwaitAccept, RFailed(Rejected), [], Sent(Rejection(cfg), room));
    RejectionRead(cfg, room, cfg.iMax);
    if room < |Rejection(cfg)| { Unread(cfg, s', Confirm(accepts, more)); }
    else { Confirmed(cfg, s', REJECT, EMPTY, [], accepts, more); }
  }

  /** A refusing initiator: in place of the confirmation a front of the rejection goes out,
      and the responder that reads it fails too: on the wrong frame, which it answers with a
      rejection of its own, or as one whose peer is gone. */
  lemma RefusedByInitiator(cfg: Config, room: nat, more: nat)
    requires Valid(cfg)
    ensures var s := Stage(cfg, 2, Acceptance(cfg));
      && Enabled(cfg, s, Confirm(false, room))
      && var s' := Step(cfg, s, Confirm(false, room));
      && s' == Joint(IFailed(Rejected), AwaitConfirm(Agreed(cfg)), Sent(Rejection(cfg), room), [])
      && Enabled(cfg, s', Commit(more))
      && Step(cfg, s', Commit(more)).r == RFailed(AfterRejection(cfg, room, HandshakeError.InvalidMagic))
      && Step(cfg, s', Commit(more)).toI == if room < |Rejection(cfg)| then [] else Sent(Rejection(cfg), more)
  {
    var s := Stage(cfg, 2, Acceptance(cfg));
    ValidValues(cfg);
    SettledOptions(cfg.local, Proposed(cfg));
    hide Build, Received, Propose, Settle, NoZero;
    assert Acceptance(cfg) + [] == Acceptance(cfg);
    assert Holds(cfg.c, s.toI, ACCEPT, Agreed(cfg), [], cfg.iMax);
    Confirmed(cfg, s, ACCEPT, Agreed(cfg), [], false, room);
    Appended(Sent(Rejection(cfg), room));
    Appended(Sent(Rejection(cfg), more));
    var s' := Joint(IFailed(Rejected), AwaitConfirm(Agreed(cfg)), Sent(Rejection(cfg), room), []);
    RejectionRead(cfg, room, cfg.rMax);
    if room < |Rejection(cfg)| { Unread(cfg, s', Commit(more)); }
    else { Committed(cfg, s', REJECT, EMPTY, [], more); }
  }
}
