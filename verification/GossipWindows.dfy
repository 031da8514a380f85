/** Timing: answers to one peer lie more than the flood window apart, and periodic requests
    keep quiet for the interval after anything the daemon announced or handled. */
module GossipWindows {
  import opened Wrappers
  import opened PeerRecords
  import opened Gossip

  /** Step k is n hearing something directly from p. */
  ghost predicate HearsAt(states: seq<Net>, steps: seq<Step>, k: nat, n: Id, p: Id)
    requires |states| == |steps| + 1 && k < |steps|
  {
    && steps[k].Receive? && steps[k].i < |states[k].flight|
    && var packet := states[k].flight[steps[k].i];
    packet.to == n && packet.event.peer.Some? && packet.event.peer.value.id == p && p != n
  }

  /** Step k is n deciding to answer a REQUEST of p. */
  ghost predicate AnswersAt(states: seq<Net>, steps: seq<Step>, k: nat, n: Id, p: Id)
    requires |states| == |steps| + 1 && k < |steps|
  {
    && HearsAt(states, steps, k, n, p)
    && n in states[k].daemons
    && Answers(n, states[k].flight[steps[k].i].event,
               OutsideWindow(states[k].daemons[n].node.heard, p, states[k].clock))
  }

  ghost predicate AnnouncesAt(steps: seq<Step>, k: nat, n: Id) {
    k < |steps| && steps[k].Announce? && steps[k].n == n
  }

  /** Between two states time moves on, and what was heard is only ever replaced by later times. */
  ghost predicate LaterThan(s: Net, s': Net) {
    && s.clock <= s'.clock
    && forall n :: n in s.daemons ==>
         && n in s'.daemons
         && (s'.daemons[n].node.activity == s.daemons[n].node.activity || s.clock <= s'.daemons[n].node.activity)
         && (forall p :: p in s.daemons[n].node.heard ==>
              && p in s'.daemons[n].node.heard
              && (s'.daemons[n].node.heard[p] == s.daemons[n].node.heard[p] || s.clock <= s'.daemons[n].node.heard[p]))
  }

  lemma {:induction false} PathMovesOn(c: Config, states: seq<Net>, steps: seq<Step>, i: nat, j: nat)
    requires Path(c, states, steps) && i <= j < |states|
    ensures LaterThan(states[i], states[j])
    decreases j - i
  {
    if i < j {
      PathMovesOn(c, states, steps, i, j - 1);
      assert Next(c, states[j - 1], steps[j - 1], states[j]);
      assert LaterThan(states[j - 1], states[j]);
    }
  }

  /** Whenever n decides to answer p, it had heard nothing directly from p, in any earlier
      step of the run, for more than the flood window; in particular its previous answer to
      p is longer ago than that. */
  lemma FloodWindowHolds(c: Config, states: seq<Net>, steps: seq<Step>, i: nat, j: nat, n: Id, p: Id)
    requires Path(c, states, steps) && i < j < |steps|
    requires HearsAt(states, steps, i, n, p) && AnswersAt(states, steps, j, n, p)
    ensures states[j].clock - states[i].clock > ANNOUNCEMENT_WINDOW
  {
    assert Next(c, states[i], steps[i], states[i + 1]);
    assert states[i + 1].daemons[n].node.heard[p] == states[i].clock;
    PathMovesOn(c, states, steps, i + 1, j);
  }

  // ---------- From answers back to decisions ----------

  /** Step i is the receipt of the packet that daemon n handles in state k, and n has finished
      nothing since. */
  ghost predicate HandlingBegan(states: seq<Net>, steps: seq<Step>, i: nat, k: nat, n: Id)
    requires |states| == |steps| + 1 && i < k < |states|
    requires n in states[k].daemons && states[k].daemons[n].handling.Some?
  {
    var h := states[k].daemons[n].handling.value;
    && h.packet.event.peer.Some?
    && n in states[i].daemons
    && HearsAt(states, steps, i, n, h.packet.event.peer.value.id)
    && states[i].flight[steps[i].i] == h.packet
    && h.outside == OutsideWindow(states[i].daemons[n].node.heard, h.packet.event.peer.value.id, states[i].clock)
    && (forall j :: i < j < k ==> !FinishesAt(steps, j, n))
  }

  ghost predicate FinishesAt(steps: seq<Step>, k: nat, n: Id) {
    k < |steps| && steps[k].Finish? && steps[k].n == n
  }

  /** A handling is begun by a receipt and otherwise carried on unchanged. */
  lemma HandlingBeginsOrGoesOn(c: Config, s: Net, step: Step, s': Net, n: Id)
    requires Next(c, s, step, s') && n in s'.daemons && s'.daemons[n].handling.Some?
    ensures n in s.daemons
    ensures s.daemons[n].handling.Some? ==>
      s'.daemons[n].handling == s.daemons[n].handling && !(step.Finish? && step.n == n)
    ensures s.daemons[n].handling.None? ==>
      && step.Receive? && step.i < |s.flight| && s.flight[step.i].to == n
      && s.flight[step.i].event.peer.Some? && s.flight[step.i].event.peer.value.id != n
      && var sender := s.flight[step.i].event.peer.value.id;
      s'.daemons[n].handling ==
        Some(Handling(s.flight[step.i], OutsideWindow(s.daemons[n].node.heard, sender, s.clock)))
  {
  }

  /** Whatever happens in between, a handling under way goes back to one receipt, whose window
      test it carries. */
  lemma {:induction false} HandlingOrigin(c: Config, states: seq<Net>, steps: seq<Step>, k: nat, n: Id) returns (i: nat)
    requires Run(c, states, steps) && k < |states|
    requires n in states[k].daemons && states[k].daemons[n].handling.Some?
    ensures i < k && HandlingBegan(states, steps, i, k, n)
  {
    if k == 0 {
      assert false;
    } else {
      HandlingBeginsOrGoesOn(c, states[k - 1], steps[k - 1], states[k], n);
      if states[k - 1].daemons[n].handling.None? {
        i := k - 1;
      } else {
        i := HandlingOrigin(c, states, steps, k - 1, n);
      }
    }
  }

  /** Step k sends n's answer to a REQUEST of p. */
  ghost predicate SendsAnswerAt(states: seq<Net>, steps: seq<Step>, k: nat, n: Id, p: Id)
    requires |states| == |steps| + 1 && k < |steps|
  {
    && FinishesAt(steps, k, n) && steps[k].response.Some?
    && n in states[k].daemons && states[k].daemons[n].handling.Some?
    && var event := states[k].daemons[n].handling.value.packet.event;
    event.peer.Some? && event.peer.value.id == p
  }

  /** Each completed handling goes back to the receipt that began it, however much later it
      finishes, and sends an answer exactly when that receipt decided so. */
  lemma AnswerFollowsDecision(c: Config, states: seq<Net>, steps: seq<Step>, k: nat, n: Id) returns (i: nat, p: Id)
    requires Run(c, states, steps) && FinishesAt(steps, k, n)
    ensures i < k && HearsAt(states, steps, i, n, p)
    ensures forall j :: i < j < k ==> !FinishesAt(steps, j, n)
    ensures SendsAnswerAt(states, steps, k, n, p) <==> AnswersAt(states, steps, i, n, p)
    ensures steps[k].response.Some? ==> SendsAnswerAt(states, steps, k, n, p)
  {
    assert Next(c, states[k], steps[k], states[k + 1]);
    i := HandlingOrigin(c, states, steps, k, n);
    p := states[k].daemons[n].handling.value.packet.event.peer.value.id;
  }

  /** What n remembers of p is the time it last heard p directly. */
  lemma {:induction false} HeardIsLastHearing(c: Config, states: seq<Net>, steps: seq<Step>, k: nat, n: Id, p: Id)
    requires Run(c, states, steps) && k < |states| && n in states[k].daemons
    ensures p in states[k].daemons[n].node.heard <==> exists j :: 0 <= j < k && HearsAt(states, steps, j, n, p)
    ensures p in states[k].daemons[n].node.heard ==>
      exists j :: 0 <= j < k && HearsAt(states, steps, j, n, p) && IsLastHearing(states, steps, j, k, n, p)
        && states[j].clock == states[k].daemons[n].node.heard[p]
  {
    if k > 0 {
      HearingIsNoted(c, states[k - 1], steps[k - 1], states[k], n, p);
      HeardIsLastHearing(c, states, steps, k - 1, n, p);
      if HearsAt(states, steps, k - 1, n, p) {
        assert IsLastHearing(states, steps, k - 1, k, n, p);
      } else if p in states[k].daemons[n].node.heard {
        var j :| 0 <= j < k - 1 && HearsAt(states, steps, j, n, p) && IsLastHearing(states, steps, j, k - 1, n, p)
          && states[j].clock == states[k - 1].daemons[n].node.heard[p];
        assert IsLastHearing(states, steps, j, k, n, p);
      }
    }
  }

  ghost predicate IsLastHearing(states: seq<Net>, steps: seq<Step>, j: nat, k: nat, n: Id, p: Id)
    requires |states| == |steps| + 1 && j < k < |states|
  {
    forall i :: j < i < k ==> !HearsAt(states, steps, i, n, p)
  }

  lemma HearingIsNoted(c: Config, s: Net, step: Step, s': Net, n: Id, p: Id)
    requires Next(c, s, step, s') && n in s'.daemons
    ensures n in s.daemons
    ensures HearsAt([s, s'], [step], 0, n, p) ==>
      p in s'.daemons[n].node.heard && s'.daemons[n].node.heard[p] == s.clock
    ensures !HearsAt([s, s'], [step], 0, n, p) ==>
      && (p in s'.daemons[n].node.heard <==> p in s.daemons[n].node.heard)
      && (p in s.daemons[n].node.heard ==> s'.daemons[n].node.heard[p] == s.daemons[n].node.heard[p])
  {
  }

  /** A REQUEST is answered exactly when it is due: the receipt of step i comes more than 90 seconds
      after everything n heard directly from the sender before, and neither side is to be ignored. */
  ghost predicate DueAt(states: seq<Net>, steps: seq<Step>, i: nat, n: Id, p: Id)
    requires |states| == |steps| + 1 && i < |steps| && HearsAt(states, steps, i, n, p)
  {
    var ev := states[i].flight[steps[i].i].event;
    && ev.kind == Request && n !in ev.ignore && p !in ev.ignore
    && forall j :: 0 <= j < i && HearsAt(states, steps, j, n, p) ==> states[i].clock - states[j].clock > 90_000_000_000
  }

  lemma DecidesExactlyWhenDue(c: Config, states: seq<Net>, steps: seq<Step>, i: nat, n: Id, p: Id)
    requires Run(c, states, steps) && i < |steps| && HearsAt(states, steps, i, n, p)
    ensures AnswersAt(states, steps, i, n, p) <==> DueAt(states, steps, i, n, p)
  {
    assert Next(c, states[i], steps[i], states[i + 1]);
    HeardIsLastHearing(c, states, steps, i, n, p);
    if p in states[i].daemons[n].node.heard {
      var last :| 0 <= last < i && HearsAt(states, steps, last, n, p) && IsLastHearing(states, steps, last, i, n, p)
        && states[last].clock == states[i].daemons[n].node.heard[p];
      forall j | 0 <= j < i && HearsAt(states, steps, j, n, p) ensures states[j].clock <= states[last].clock {
        assert j <= last;
        PathMovesOn(c, states, steps, j, last);
      }
    }
  }

  /** So a completed handling, however late it finishes, sends an answer to p if and only if the
      receipt it goes back to was due one. */
  lemma AnswersExactlyWhenDue(c: Config, states: seq<Net>, steps: seq<Step>, k: nat, n: Id) returns (i: nat, p: Id)
    requires Run(c, states, steps) && FinishesAt(steps, k, n)
    ensures i < k && HearsAt(states, steps, i, n, p)
    ensures forall j :: i < j < k ==> !FinishesAt(steps, j, n)
    ensures steps[k].response.Some? <==> DueAt(states, steps, i, n, p)
    ensures steps[k].response.Some? ==> SendsAnswerAt(states, steps, k, n, p)
  {
    i, p := AnswerFollowsDecision(c, states, steps, k, n);
    DecidesExactlyWhenDue(c, states, steps, i, n, p);
  }

  /** Two answers of n to p go back to two decisions more than the flood window apart, the first
      answer being sent before the second decision. So the second answer is sent more than the
      window after the first one was decided on, and more than the window after it was sent,
      less the time the first handling took. */
  lemma AnswersRespectWindow(c: Config, states: seq<Net>, steps: seq<Step>, k: nat, l: nat, n: Id, p: Id)
      returns (i: nat, j: nat)
    requires Run(c, states, steps) && k < l < |steps|
    requires SendsAnswerAt(states, steps, k, n, p) && SendsAnswerAt(states, steps, l, n, p)
    ensures i < k < j < l && AnswersAt(states, steps, i, n, p) && AnswersAt(states, steps, j, n, p)
    ensures states[j].clock - states[i].clock > ANNOUNCEMENT_WINDOW
    ensures states[l].clock - states[k].clock > ANNOUNCEMENT_WINDOW - (states[k].clock - states[i].clock)
  {
    var q, r;
    i, q := AnswerFollowsDecision(c, states, steps, k, n);
    j, r := AnswerFollowsDecision(c, states, steps, l, n);
    assert !(j < k < l) && j != k;
    FloodWindowHolds(c, states, steps, i, j, n, p);
    PathMovesOn(c, states, steps, j, l);
  }

  /** A periodic REQUEST comes at least the interval after n's previous announcement of either
      kind and after the last announcement n began to handle. */
  lemma QuietIntervalHolds(c: Config, states: seq<Net>, steps: seq<Step>, i: nat, j: nat, n: Id)
    requires Path(c, states, steps) && i < j < |steps|
    requires AnnouncesAt(steps, i, n) || exists p :: HearsAt(states, steps, i, n, p)
    requires AnnouncesAt(steps, j, n) && !steps[j].first
    ensures states[j].clock - states[i].clock >= c.interval(n)
  {
    assert Next(c, states[i], steps[i], states[i + 1]);
    assert Next(c, states[j], steps[j], states[j + 1]);
    assert states[i + 1].daemons[n].node.activity == states[i].clock;
    PathMovesOn(c, states, steps, i + 1, j);
  }

  /** A daemon's first announcement is its only unconditional one: no tick precedes it. */
  lemma FirstAnnouncementIsFirst(c: Config, states: seq<Net>, steps: seq<Step>, j: nat, n: Id)
    requires Run(c, states, steps) && AnnouncesAt(steps, j, n)
    ensures !steps[j].first <==> exists i :: 0 <= i < j && AnnouncesAt(steps, i, n)
  {
    assert Next(c, states[j], steps[j], states[j + 1]);
    StartedOnceAnnounced(c, states, steps, j, n);
  }

  lemma {:induction false} StartedOnceAnnounced(c: Config, states: seq<Net>, steps: seq<Step>, j: nat, n: Id)
    requires Run(c, states, steps) && j < |states| && n in states[j].daemons
    ensures states[j].daemons[n].started <==> exists i :: 0 <= i < j && AnnouncesAt(steps, i, n)
  {
    if j > 0 {
      assert Next(c, states[j - 1], steps[j - 1], states[j]);
      StartedOnceAnnounced(c, states, steps, j - 1, n);
      if AnnouncesAt(steps, j - 1, n) {
        assert states[j].daemons[n].started;
      } else {
        assert states[j].daemons[n].started == states[j - 1].daemons[n].started;
      }
    }
  }
}
