/**
 * The whole session: the controller fed with the messages its one worker
 * sends while it works through the manifest entry by entry.
 */
module Reconcile {
  import opened Wrappers
  import opened Files
  import opened Manifest
  import opened Decision
  import opened Worker
  import opened Controller

  /** Worker messages as they reach the controller. */
  function Deliveries(ms: seq<Message>): (ins: seq<Input>)
    ensures |ins| == |ms|
    ensures forall i :: 0 <= i < |ms| ==> ins[i] == Deliver(ms[i])
  {
    seq(|ms|, i requires 0 <= i < |ms| => Deliver(ms[i]))
  }

  /**
   * The messages of units `k`, `k + 1`, … of a session, unit `i` running
   * plan `plans[i]` with I/O `ios[i]`.
   */
  function Stream(files: seq<Entry>, plans: seq<Plan>, ios: seq<UnitIo>, k: nat): seq<Message>
    requires |plans| == |files| && |ios| == |files|
    decreases |files| - k
  {
    if k >= |files| then []
    else RunUnit(files[k], plans[k], ios[k]) + Stream(files, plans, ios, k + 1)
  }

  /** A message that does not complete a unit only adds its credit. */
  lemma QuietStep(s: Session, m: Message)
    requires !m.Complete?
    ensures Step(s, Deliver(m)).s == s.(completedBytes := s.completedBytes + Credit(m))
    ensures Sent(Step(s, Deliver(m)).effects) == []
  {
    NoSends(Step(s, Deliver(m)).effects);
  }

  lemma DeliveriesTail(ms: seq<Message>)
    requires |ms| > 0
    ensures Deliveries(ms)[0] == Deliver(ms[0])
    ensures Deliveries(ms)[1..] == Deliveries(ms[1..])
  {
  }

  /** Running a non-empty input list is one step and then the rest. */
  lemma RunCons(s: Session, inputs: seq<Input>)
    requires |inputs| > 0
    ensures Run(s, inputs).s == Run(Step(s, inputs[0]).s, inputs[1..]).s
    ensures Run(s, inputs).effects == Step(s, inputs[0]).effects + Run(Step(s, inputs[0]).s, inputs[1..]).effects
  {
  }

  /** Messages that do not complete a unit only add their credits. */
  lemma {:induction false} QuietRun(s: Session, ms: seq<Message>)
    requires Completions(ms) == 0
    ensures Run(s, Deliveries(ms)).s == s.(completedBytes := s.completedBytes + Credits(ms))
    ensures Sent(Run(s, Deliveries(ms)).effects) == []
    decreases |ms|
  {
    if |ms| > 0 {
      var m := ms[0];
      QuietStep(s, m);
      var o := Step(s, Deliver(m));
      DeliveriesTail(ms);
      RunCons(s, Deliveries(ms));
      QuietRun(o.s, ms[1..]);
      SentAfterQuiet(o.effects, Run(o.s, Deliveries(ms[1..])).effects);
    }
  }

  lemma SentAfterQuiet(a: seq<Effect>, b: seq<Effect>)
    requires Sent(a) == []
    ensures Sent(a + b) == Sent(b)
  {
    SentAppend(a, b);
  }

  lemma DeliveriesSnoc(head: seq<Message>, last: Message)
    ensures Deliveries(head + [last]) == Deliveries(head) + [Deliver(last)]
  {
    var r := Deliveries(head) + [Deliver(last)];
    forall i | 0 <= i < |head| + 1
      ensures Deliveries(head + [last])[i] == r[i]
    {
      if i < |head| {
        assert r[i] == Deliveries(head)[i];
      }
    }
  }

  /** Running one more input after a list is one more step. */
  lemma RunSnoc(s: Session, inputs: seq<Input>, x: Input)
    ensures Run(s, inputs + [x]).s == Step(Run(s, inputs).s, x).s
    ensures Run(s, inputs + [x]).effects == Run(s, inputs).effects + Step(Run(s, inputs).s, x).effects
  {
    RunAppend(s, inputs, [x]);
    var o := Step(Run(s, inputs).s, x);
    assert [x][1..] == [];
    assert Run(o.s, []) == Outcome(o.s, []);
    assert o.effects + [] == o.effects;
  }

  /** A quiet stream and one last message: the quiet part only adds credits, then one step. */
  lemma ClosingRunState(s: Session, head: seq<Message>, last: Message, mid: Session)
    requires Completions(head) == 0
    requires mid == s.(completedBytes := s.completedBytes + Credits(head))
    ensures Run(s, Deliveries(head + [last])).s == Step(mid, Deliver(last)).s
  {
    DeliveriesSnoc(head, last);
    RunSnoc(s, Deliveries(head), Deliver(last));
    QuietRun(s, head);
  }

  /** Of a quiet stream and one last message, only the last can send an entry. */
  lemma ClosingRunSends(s: Session, head: seq<Message>, last: Message, mid: Session)
    requires Completions(head) == 0
    requires mid == s.(completedBytes := s.completedBytes + Credits(head))
    ensures Sent(Run(s, Deliveries(head + [last])).effects) == Sent(Step(mid, Deliver(last)).effects)
  {
    DeliveriesSnoc(head, last);
    RunSnoc(s, Deliveries(head), Deliver(last));
    QuietRun(s, head);
    SentAfterQuiet(Run(s, Deliveries(head)).effects, Step(mid, Deliver(last)).effects);
  }

  /** The state after a quiet stream and its completion is the completion's step from the credited state. */
  lemma ClosedRunState(s: Session, head: seq<Message>, bytes: int, o: Outcome, mid: Session, last: Outcome)
    requires Completions(head) == 0
    requires o == Run(s, Deliveries(head + [Complete(bytes)]))
    requires mid == s.(completedBytes := s.completedBytes + Credits(head))
    requires last == Step(mid, Deliver(Complete(bytes)))
    ensures o.s == last.s && Sent(o.effects) == Sent(last.effects)
  {
    ClosingRunState(s, head, Complete(bytes), mid);
    ClosingRunSends(s, head, Complete(bytes), mid);
  }

  /**
   * A quiet stream closed by a completion credits its total (`mid` is the
   * session once the stream is credited), then the controller either sends
   * the next entry or retires the worker.
   */
  lemma ClosedRun(s: Session, head: seq<Message>, bytes: int, mid: Session, o: Outcome)
    requires Completions(head) == 0
    requires s.fileIndex <= |s.files|
    requires mid == s.(completedBytes := s.completedBytes + Credits(head))
    requires o == Run(s, Deliveries(head + [Complete(bytes)]))
    ensures o.s.completedBytes == mid.completedBytes + bytes
    ensures o.s.files == s.files && o.s.totalBytes == s.totalBytes && o.s.canceling == s.canceling
    ensures s.fileIndex < |s.files| ==>
      o.s.fileIndex == s.fileIndex + 1 && Sent(o.effects) == [s.files[s.fileIndex]]
      && o.s.forked == s.forked && o.s.alive == s.alive
    ensures s.fileIndex == |s.files| ==>
      o.s.fileIndex == s.fileIndex && Sent(o.effects) == [] && !o.s.forked && !o.s.alive
  {
    var last := Step(mid, Deliver(Complete(bytes)));
    ClosedRunState(s, head, bytes, o, mid, last);
    CompleteStep(mid, bytes, last);
  }

  /**
   * One successful unit credits exactly its weight, then the controller
   * either sends the next entry or retires the worker.
   */
  lemma UnitRun(s: Session, e: Entry, p: Plan, io: UnitIo)
    requires Succeeds(p.action, io)
    requires s.fileIndex <= |s.files|
    ensures var o := Run(s, Deliveries(RunUnit(e, p, io)));
      && o.s.completedBytes == s.completedBytes + Weight(e)
      && o.s.files == s.files && o.s.totalBytes == s.totalBytes && o.s.canceling == s.canceling
      && (s.fileIndex < |s.files| ==>
            o.s.fileIndex == s.fileIndex + 1 && Sent(o.effects) == [s.files[s.fileIndex]]
            && o.s.forked == s.forked && o.s.alive == s.alive)
      && (s.fileIndex == |s.files| ==>
            o.s.fileIndex == s.fileIndex && Sent(o.effects) == [] && !o.s.forked && !o.s.alive)
  {
    var ms := RunUnit(e, p, io);
    UnitAccounting(e, p, io);
    ClosesOnceSplit(ms);
    var head := ms[..|ms| - 1];
    var bytes := ms[|ms| - 1].bytes;
    ClosedRun(s, head, bytes, s.(completedBytes := s.completedBytes + Credits(head)), Run(s, Deliveries(ms)));
  }

  /**
   * One unit as it reaches the session: its messages are delivered in order
   * and, when the worker crashes, its process is then gone. The controller
   * has no `exit` handler, so it notices nothing and keeps the worker in
   * `forks`.
   */
  function AfterUnit(s: Session, e: Entry, p: Plan, io: UnitIo): Outcome {
    var o := Run(s, Deliveries(RunUnit(e, p, io)));
    if Crashes(p.action, io) then Outcome(o.s.(alive := false), o.effects) else o
  }

  /**
   * A unit that fails adds its partial credits and dispatches nothing: the
   * session stalls. After a failed download the worker is dead but still
   * listed, and no later message can come from it.
   */
  lemma FailedUnitStalls(s: Session, e: Entry, p: Plan, io: UnitIo)
    requires !Succeeds(p.action, io)
    ensures var o := AfterUnit(s, e, p, io);
      && o.s == s.(completedBytes := s.completedBytes + Credits(RunUnit(e, p, io)),
                   alive := s.alive && !Crashes(p.action, io))
      && Sent(o.effects) == []
  {
    var ms := RunUnit(e, p, io);
    var o := Run(s, Deliveries(ms));
    UnitFailureNeverCompletes(e, p, io);
    QuietRun(s, ms);
    assert AfterUnit(s, e, p, io) == if Crashes(p.action, io) then Outcome(o.s.(alive := false), o.effects) else o;
  }

  /** The controller takes a session's messages unit by unit. */
  lemma StreamStep(s: Session, files: seq<Entry>, plans: seq<Plan>, ios: seq<UnitIo>, k: nat)
    requires |plans| == |files| && |ios| == |files| && k < |files|
    ensures var mid := Run(s, Deliveries(RunUnit(files[k], plans[k], ios[k])));
            var rest := Run(mid.s, Deliveries(Stream(files, plans, ios, k + 1)));
      Run(s, Deliveries(Stream(files, plans, ios, k))) == Outcome(rest.s, mid.effects + rest.effects)
  {
    var unit := RunUnit(files[k], plans[k], ios[k]);
    var rest := Stream(files, plans, ios, k + 1);
    assert Stream(files, plans, ios, k) == unit + rest;
    RunConcat(s, unit, rest);
  }

  lemma DeliveriesAppend(a: seq<Message>, b: seq<Message>)
    ensures Deliveries(a + b) == Deliveries(a) + Deliveries(b)
  {
    var r := Deliveries(a) + Deliveries(b);
    forall i | 0 <= i < |a| + |b|
      ensures Deliveries(a + b)[i] == r[i]
    {
      if i < |a| {
        assert r[i] == Deliveries(a)[i];
      } else {
        assert r[i] == Deliveries(b)[i - |a|];
      }
    }
  }

  /** The controller takes two message lists one after the other. */
  lemma RunConcat(s: Session, a: seq<Message>, b: seq<Message>)
    ensures Run(s, Deliveries(a + b))
      == Outcome(Run(Run(s, Deliveries(a)).s, Deliveries(b)).s,
                 Run(s, Deliveries(a)).effects + Run(Run(s, Deliveries(a)).s, Deliveries(b)).effects)
  {
    DeliveriesAppend(a, b);
    RunAppend(s, Deliveries(a), Deliveries(b));
  }

  /** What the controller holds after one successful unit of a session. */
  lemma UnitOfSession(s: Session, files: seq<Entry>, plans: seq<Plan>, ios: seq<UnitIo>, k: nat)
    requires |plans| == |files| && |ios| == |files|
    requires k < |files| && s.files == files && s.fileIndex == k + 1
    requires Succeeds(plans[k].action, ios[k])
    requires s.completedBytes == SessionWeight(files[..k])
    ensures var mid := Run(s, Deliveries(RunUnit(files[k], plans[k], ios[k])));
      && mid.s.completedBytes == SessionWeight(files[..k + 1])
      && mid.s.files == files && mid.s.totalBytes == s.totalBytes
      && (k + 1 < |files| ==> mid.s.fileIndex == k + 2 && Sent(mid.effects) == [files[k + 1]])
      && (k + 1 == |files| ==> mid.s.fileIndex == k + 1 && Sent(mid.effects) == [] && !mid.s.forked && !mid.s.alive)
  {
    UnitRun(s, files[k], plans[k], ios[k]);
    assert files[..k + 1][..k] == files[..k];
  }

  lemma {:induction false} SessionRun(s: Session, files: seq<Entry>, plans: seq<Plan>, ios: seq<UnitIo>, k: nat)
    requires |plans| == |files| && |ios| == |files|
    requires forall i :: 0 <= i < |files| ==> Succeeds(plans[i].action, ios[i])
    requires k < |files| && s.files == files && s.fileIndex == k + 1
    requires s.completedBytes == SessionWeight(files[..k])
    ensures var o := Run(s, Deliveries(Stream(files, plans, ios, k)));
      && o.s.completedBytes == SessionWeight(files)
      && o.s.totalBytes == s.totalBytes
      && !o.s.forked && !o.s.alive
    decreases |files| - k
  {
    var mid := Run(s, Deliveries(RunUnit(files[k], plans[k], ios[k])));
    StreamStep(s, files, plans, ios, k);
    UnitOfSession(s, files, plans, ios, k);
    if k + 1 < |files| {
      SessionRun(mid.s, files, plans, ios, k + 1);
    } else {
      assert files[..k + 1] == files;
    }
  }

  lemma {:induction false} SessionSends(s: Session, files: seq<Entry>, plans: seq<Plan>, ios: seq<UnitIo>, k: nat)
    requires |plans| == |files| && |ios| == |files|
    requires forall i :: 0 <= i < |files| ==> Succeeds(plans[i].action, ios[i])
    requires k < |files| && s.files == files && s.fileIndex == k + 1
    requires s.completedBytes == SessionWeight(files[..k])
    ensures Sent(Run(s, Deliveries(Stream(files, plans, ios, k))).effects) == files[k + 1..]
    decreases |files| - k
  {
    var mid := Run(s, Deliveries(RunUnit(files[k], plans[k], ios[k])));
    var last := Run(mid.s, Deliveries(Stream(files, plans, ios, k + 1)));
    var all := Run(s, Deliveries(Stream(files, plans, ios, k)));
    assert all.effects == mid.effects + last.effects by {
      StreamStep(s, files, plans, ios, k);
    }
    SentAppend(mid.effects, last.effects);
    if k + 1 < |files| {
      assert Sent(mid.effects) == [files[k + 1]] && mid.s.files == files && mid.s.fileIndex == k + 2
          && mid.s.completedBytes == SessionWeight(files[..k + 1]) by {
        UnitOfSession(s, files, plans, ios, k);
      }
      assert Sent(last.effects) == files[k + 2..] by {
        SessionSends(mid.s, files, plans, ios, k + 1);
      }
      SliceCons(files, k + 1);
    } else {
      assert Sent(mid.effects) == [] by {
        UnitOfSession(s, files, plans, ios, k);
      }
      assert last.effects == [];
    }
  }

  /**
   * The accounting identity of a session: when every unit succeeds, whatever
   * each decided and however its bytes were chunked, the credits received
   * add up to the session total, every entry was sent exactly once in
   * manifest order, and the worker was retired.
   */
  lemma SessionAccounting(files: seq<Entry>, plans: seq<Plan>, ios: seq<UnitIo>)
    requires |plans| == |files| && |ios| == |files|
    requires forall i :: 0 <= i < |files| ==> Succeeds(plans[i].action, ios[i])
    ensures var o0 := CheckFiles(Install(), files);
            var o := Run(o0.s, Deliveries(Stream(files, plans, ios, 0)));
      && o.s.completedBytes == o.s.totalBytes == SumSizes(files) + SumSizes(Zips(files))
      && Sent(o0.effects + o.effects) == files
      && !o.s.alive && !o.s.forked
  {
    var o0 := CheckFiles(Install(), files);
    if |files| == 0 {
      assert Stream(files, plans, ios, 0) == [];
      return;
    }
    assert files[..0] == [];
    SessionRun(o0.s, files, plans, ios, 0);
    SessionSends(o0.s, files, plans, ios, 0);
    TotalIsSessionWeight(files);
    var o := Run(o0.s, Deliveries(Stream(files, plans, ios, 0)));
    SentAppend(o0.effects, o.effects);
    assert Sent(o0.effects) == [files[0]];
    assert [files[0]] + files[1..] == files;
  }

  /**
   * Re-running over an installation that already matches an entry moves no
   * bytes: the unit succeeds and its messages do not depend on any transfer.
   */
  lemma ReconciledUnitMovesNothing(e: Entry, fs: Snapshot, swgPath: string, emuPath: string, fullScan: bool, io: UnitIo)
    requires Target(e, emuPath) in fs
    requires !SizeMismatch(e, fs[Target(e, emuPath)]) && !Stale(e, fs[Target(e, emuPath)])
    ensures var p := Decide(e, fs, swgPath, emuPath, fullScan);
      && Succeeds(p.action, io)
      && RunUnit(e, p, io) == RunUnit(e, p, UnitIo(io.hashChunks, [], Some("unused"), Unreadable))
  {
    ReconciledNeedsNoTransfer(e, fs, swgPath, emuPath, fullScan);
    NoTransferIgnoresIo(e, Decide(e, fs, swgPath, emuPath, fullScan), io);
  }
}
