/**
 * The install session controller: it computes the session total, forks the
 * worker, hands it manifest entries one at a time as each completes, adds up
 * the credits the worker reports, forwards progress until cancelled, and
 * retires the worker after the last entry.
 *
 * The source forks exactly one worker (its fork loop runs once), so the model
 * has one worker, described by whether it is listed in `forks` and whether
 * its process is still running.
 */
module Controller {
  import opened Manifest
  import opened Worker
  import JsText

  datatype Session = Session(
    files: seq<Entry>,    // the manifest of the session
    fileIndex: nat,       // how many entries have been handed out
    completedBytes: int,  // credits received so far
    totalBytes: int,      // the session weight
    canceling: bool,      // progress is no longer forwarded
    forked: bool,         // the worker is listed in `forks`
    alive: bool)          // the worker process is running

  /** What a step does outside the controller. */
  datatype Effect =
    | Forward(completed: int, total: int)  // the progress callback is called
    | Send(entry: Entry)                   // an entry is sent to the worker
    | Kill                                 // the worker is killed
    | Log(text: string)                    // a console line

  /** What reaches the controller: a message from the worker, or the user's cancel. */
  datatype Input = Deliver(msg: Message) | Cancel

  datatype Outcome = Outcome(s: Session, effects: seq<Effect>)

  /** `install` resets the session's counters and clears `canceling`. */
  function Install(): Session {
    Session([], 0, 0, 0, false, false, false)
  }

  /** The progress callback is called only while not cancelling. */
  function Forwarded(s: Session): seq<Effect> {
    if s.canceling then [] else [Forward(s.completedBytes, s.totalBytes)]
  }

  /**
   * `checkFiles` as written: it forks the worker, then sends `files[0]` after
   * incrementing the index. With an empty manifest there is no `files[0]`;
   * sending `undefined` throws, after the fork started but before it was
   * added to `forks`.
   */
  function CheckFilesAsWritten(s: Session, files: seq<Entry>): Outcome {
    var s1 := s.(files := files, totalBytes := SessionWeight(files), fileIndex := s.fileIndex + 1, alive := true);
    if s.fileIndex < |files| then Outcome(s1.(forked := true), [Send(files[s.fileIndex])])
    else Outcome(s1, [])
  }

  /**
   * `checkFiles`, corrected so that an empty manifest forks no worker;
   * otherwise as written.
   */
  function CheckFiles(s: Session, files: seq<Entry>): (o: Outcome)
    ensures o.s.files == files && o.s.totalBytes == SessionWeight(files)
    ensures o.s.canceling == s.canceling && o.s.completedBytes == s.completedBytes
    ensures |files| == 0 ==> o.effects == [] && o.s.alive == s.alive && o.s.forked == s.forked
  {
    if |files| == 0 then Outcome(s.(files := files, totalBytes := SessionWeight(files)), [])
    else CheckFilesAsWritten(s, files)
  }

  /** A non-empty manifest forks the worker, lists it in `forks` and sends it the first entry. */
  lemma CheckFilesStarts(s: Session, files: seq<Entry>)
    requires s.fileIndex < |files|
    ensures var o := CheckFiles(s, files);
      && o.effects == [Send(files[s.fileIndex])] && o.s.fileIndex == s.fileIndex + 1
      && o.s.forked && o.s.alive
  {
  }

  /** `installedCallback` for one worker message, and `cancel`. */
  function Step(s: Session, input: Input): (o: Outcome)
    ensures o.s.files == s.files && o.s.totalBytes == s.totalBytes
    ensures input.Deliver? ==> o.s.completedBytes == s.completedBytes + Credit(input.msg) && o.s.canceling == s.canceling
    ensures input.Cancel? ==> o.s.canceling && !o.s.forked && o.s.completedBytes == s.completedBytes
    ensures input.Cancel? ==> (Kill in o.effects <==> s.forked)
    ensures Kill in o.effects ==> !o.s.forked && !o.s.alive
    ensures s.canceling ==> Silent(o.effects)
  {
    match input
    case Cancel =>
      Outcome(s.(canceling := true, forked := false, alive := s.alive && !s.forked),
              if s.forked then [Kill] else [])
    case Deliver(Complete(bytes)) =>
      var s1 := s.(completedBytes := s.completedBytes + bytes);
      if s.fileIndex == |s.files| then
        // `forks.splice(forks.indexOf(fork), 1)` empties the one-worker list either way
        Outcome(s1.(forked := false, alive := false), Forwarded(s1) + [Kill, Log("killing fork")])
      else if s.fileIndex < |s.files| then
        Outcome(s1.(fileIndex := s.fileIndex + 1), Forwarded(s1) + [Send(s.files[s.fileIndex])])
      else
        // `files[fileIndex++]` is undefined: the send throws after the increment
        Outcome(s1.(fileIndex := s.fileIndex + 1), Forwarded(s1))
    case Deliver(Progress(bytes)) =>
      if bytes != 0 then
        var s1 := s.(completedBytes := s.completedBytes + bytes);
        Outcome(s1, Forwarded(s1))
      else Outcome(s, [Log("{\"progress\":0}")])
    case Deliver(Text(t)) =>
      // `console.log(JSON.stringify(message))`
      Outcome(s, [Log(JsText.JsonString(t))])
  }

  /** A sequence of inputs, in order. */
  function Run(s: Session, inputs: seq<Input>): Outcome
    decreases |inputs|
  {
    if |inputs| == 0 then Outcome(s, [])
    else
      var o := Step(s, inputs[0]);
      var rest := Run(o.s, inputs[1..]);
      Outcome(rest.s, o.effects + rest.effects)
  }

  /** The entries sent to the worker, in order. */
  function Sent(effects: seq<Effect>): seq<Entry> {
    if |effects| == 0 then []
    else (if effects[0].Send? then [effects[0].entry] else []) + Sent(effects[1..])
  }

  /** No effect calls the progress callback. */
  predicate Silent(effects: seq<Effect>) {
    forall i :: 0 <= i < |effects| ==> !effects[i].Forward?
  }

  /** The running worker is always one `cancel` can reach. */
  predicate Tracked(s: Session) {
    s.alive ==> s.forked
  }

  lemma {:induction false} SentAppend(a: seq<Effect>, b: seq<Effect>)
    ensures Sent(a + b) == Sent(a) + Sent(b)
  {
    if |a| > 0 {
      assert (a + b)[1..] == a[1..] + b;
      SentAppend(a[1..], b);
    } else {
      assert a + b == b;
    }
  }

  lemma {:induction false} NoSends(effects: seq<Effect>)
    requires forall i :: 0 <= i < |effects| ==> !effects[i].Send?
    ensures Sent(effects) == []
  {
    if |effects| > 0 {
      NoSends(effects[1..]);
    }
  }

  /** Running two input sequences one after the other is running their concatenation. */
  lemma {:induction false} RunAppend(s: Session, a: seq<Input>, b: seq<Input>)
    ensures Run(s, a + b).s == Run(Run(s, a).s, b).s
    ensures Run(s, a + b).effects == Run(s, a).effects + Run(Run(s, a).s, b).effects
    decreases |a|
  {
    if |a| > 0 {
      assert (a + b)[1..] == a[1..] + b;
      RunAppend(Step(s, a[0]).s, a[1..], b);
    } else {
      assert a + b == b;
    }
  }

  /** One step hands out the entries between the old and the new index, and no others. */
  lemma StepDispatch(s: Session, input: Input)
    requires s.fileIndex <= |s.files|
    ensures var o := Step(s, input);
      && o.s.files == s.files
      && s.fileIndex <= o.s.fileIndex <= |s.files|
      && Sent(o.effects) == s.files[s.fileIndex..o.s.fileIndex]
  {
    match input {
      case Cancel =>
        NoSends(Step(s, input).effects);
      case Deliver(m) =>
        if m.Complete? {
          var s1 := s.(completedBytes := s.completedBytes + m.bytes);
          CompleteDispatch(s, s1, m.bytes);
        } else {
          NoSends(Step(s, input).effects);
        }
    }
  }

  lemma CompleteDispatch(s: Session, s1: Session, bytes: int)
    requires s.fileIndex <= |s.files|
    requires s1 == s.(completedBytes := s.completedBytes + bytes)
    ensures var o := Step(s, Deliver(Complete(bytes)));
      && o.s.files == s.files
      && s.fileIndex <= o.s.fileIndex <= |s.files|
      && Sent(o.effects) == s.files[s.fileIndex..o.s.fileIndex]
  {
    var o := Step(s, Deliver(Complete(bytes)));
    NoSends(Forwarded(s1));
    if s.fileIndex < |s.files| {
      assert o == Outcome(s1.(fileIndex := s.fileIndex + 1), Forwarded(s1) + [Send(s.files[s.fileIndex])]);
      SentAppend(Forwarded(s1), [Send(s.files[s.fileIndex])]);
      assert s.files[s.fileIndex..o.s.fileIndex] == [s.files[s.fileIndex]];
    } else {
      assert o == Outcome(s1.(forked := false, alive := false), Forwarded(s1) + [Kill, Log("killing fork")]);
      SentAppend(Forwarded(s1), [Kill, Log("killing fork")]);
    }
  }

  lemma {:induction false} RunDispatch(s: Session, inputs: seq<Input>)
    requires s.fileIndex <= |s.files|
    ensures var o := Run(s, inputs);
      && o.s.files == s.files
      && s.fileIndex <= o.s.fileIndex <= |s.files|
      && Sent(o.effects) == s.files[s.fileIndex..o.s.fileIndex]
    decreases |inputs|
  {
    if |inputs| > 0 {
      var o := Step(s, inputs[0]);
      StepDispatch(s, inputs[0]);
      RunDispatch(o.s, inputs[1..]);
      var rest := Run(o.s, inputs[1..]);
      assert Run(s, inputs) == Outcome(rest.s, o.effects + rest.effects);
      SentAppend(o.effects, rest.effects);
      SliceJoin(s.files, s.fileIndex, o.s.fileIndex, rest.s.fileIndex);
    }
  }

  lemma SliceOne(xs: seq<Entry>, i: nat)
    requires i < |xs|
    ensures xs[i..i + 1] == [xs[i]]
  {
  }

  lemma SliceCons(xs: seq<Entry>, i: nat)
    requires i < |xs|
    ensures [xs[i]] + xs[i + 1..] == xs[i..]
  {
  }

  lemma SliceJoin(xs: seq<Entry>, i: nat, j: nat, k: nat)
    requires i <= j <= k <= |xs|
    ensures xs[i..j] + xs[j..k] == xs[i..k]
  {
  }

  /**
   * A credit from the worker is added to the running total, and the new total
   * is forwarded exactly when the session is not cancelling.
   */
  lemma StepForwardsUnlessCancelling(s: Session, m: Message)
    requires m.Complete? || (m.Progress? && m.bytes != 0)
    ensures var o := Step(s, Deliver(m));
      && o.s.completedBytes == s.completedBytes + m.bytes
      && o.s.canceling == s.canceling
      && (Forward(o.s.completedBytes, o.s.totalBytes) in o.effects <==> !s.canceling)
  {
    var o := Step(s, Deliver(m));
    if s.canceling {
      assert Silent(o.effects);
    }
  }

  /**
   * A completion adds its bytes and leaves the manifest, the total and the
   * cancel flag alone; before the end it moves to the next entry, at the end
   * it retires the worker.
   */
  lemma CompleteStep(s: Session, bytes: int, o: Outcome)
    requires s.fileIndex <= |s.files|
    requires o == Step(s, Deliver(Complete(bytes)))
    ensures o.s.completedBytes == s.completedBytes + bytes
    ensures o.s.files == s.files && o.s.totalBytes == s.totalBytes && o.s.canceling == s.canceling
    ensures s.fileIndex < |s.files| ==>
      && o.s.fileIndex == s.fileIndex + 1 && o.s.forked == s.forked && o.s.alive == s.alive
      && Sent(o.effects) == [s.files[s.fileIndex]]
    ensures s.fileIndex == |s.files| ==>
      o.s.fileIndex == s.fileIndex && !o.s.forked && !o.s.alive && Sent(o.effects) == []
  {
    CompleteDispatch(s, s.(completedBytes := s.completedBytes + bytes), bytes);
    if s.fileIndex < |s.files| {
      SliceOne(s.files, s.fileIndex);
    }
  }

  /** The completion of the last entry retires the worker: it leaves `forks` and is killed. */
  lemma LastCompletionRetires(s: Session, bytes: int)
    requires s.fileIndex == |s.files|
    ensures var o := Step(s, Deliver(Complete(bytes)));
      && !o.s.forked && !o.s.alive && Kill in o.effects
      && o.s.fileIndex == s.fileIndex && Sent(o.effects) == []
  {
    NoSends(Step(s, Deliver(Complete(bytes))).effects);
  }

  /**
   * Whatever the worker reports, the entries sent to it are a prefix of the
   * manifest, in manifest order: none is skipped, repeated or reordered.
   */
  lemma DispatchesInOrder(files: seq<Entry>, inputs: seq<Input>)
    ensures var o0 := CheckFiles(Install(), files);
            var o := Run(o0.s, inputs);
      && o.s.fileIndex <= |files|
      && Sent(o0.effects + o.effects) == files[..o.s.fileIndex]
  {
    var o0 := CheckFiles(Install(), files);
    if |files| > 0 {
      assert Sent(o0.effects) == [files[0]];
    }
    RunDispatch(o0.s, inputs);
    SentAppend(o0.effects, Run(o0.s, inputs).effects);
  }

  /** With a name-unique manifest, no file is handed to the worker twice. */
  lemma DispatchesEachOnce(files: seq<Entry>, inputs: seq<Input>)
    requires UniqueNames(files)
    ensures var o0 := CheckFiles(Install(), files);
      UniqueNames(Sent(o0.effects + Run(o0.s, inputs).effects))
  {
    DispatchesInOrder(files, inputs);
  }

  /** Once cancelling, the controller stays cancelled and never calls the progress callback. */
  lemma {:induction false} CancelledRunIsSilent(s: Session, inputs: seq<Input>)
    requires s.canceling
    ensures Run(s, inputs).s.canceling
    ensures Silent(Run(s, inputs).effects)
    decreases |inputs|
  {
    if |inputs| > 0 {
      var o := Step(s, inputs[0]);
      CancelledRunIsSilent(o.s, inputs[1..]);
    }
  }

  /** After `cancel`, whatever still arrives, no progress is forwarded. */
  lemma NothingForwardedAfterCancel(s: Session, before: seq<Input>, after: seq<Input>)
    ensures var o := Run(s, before + [Cancel]);
      Silent(Run(o.s, after).effects)
  {
    RunAppend(s, before, [Cancel]);
    CancelledRunIsSilent(Run(s, before + [Cancel]).s, after);
  }

  lemma {:induction false} RunTracked(s: Session, inputs: seq<Input>)
    requires Tracked(s)
    ensures Tracked(Run(s, inputs).s)
    ensures !s.alive ==> !Run(s, inputs).s.alive
    decreases |inputs|
  {
    if |inputs| > 0 {
      RunTracked(Step(s, inputs[0]).s, inputs[1..]);
    }
  }

  /**
   * `cancel` kills the worker: after it, the worker never runs again, so the
   * entries the controller still sends reach no one.
   */
  lemma CancelStopsWorker(files: seq<Entry>, before: seq<Input>, after: seq<Input>)
    ensures var o0 := CheckFiles(Install(), files);
            var o1 := Run(o0.s, before + [Cancel]);
      !o1.s.alive && !Run(o1.s, after).s.alive
  {
    var o0 := CheckFiles(Install(), files);
    RunTracked(o0.s, before);
    RunAppend(o0.s, before, [Cancel]);
    var o1 := Run(o0.s, before + [Cancel]);
    RunTracked(o1.s, after);
  }

  /**
   * A cancel that arrives while the manifest is being fetched does not stop
   * the session from starting: the worker is forked and sent the first entry,
   * only progress forwarding stays off.
   */
  lemma CancelDuringFetchStillDispatches(files: seq<Entry>)
    requires |files| > 0
    ensures var o := CheckFiles(Step(Install(), Cancel).s, files);
      o.effects == [Send(files[0])] && o.s.alive && o.s.canceling
  {
  }

  lemma {:induction false} OrphanStaysAlive(s: Session, inputs: seq<Input>)
    requires s.alive && !s.forked && s.fileIndex > |s.files|
    ensures Run(s, inputs).s.alive
    decreases |inputs|
  {
    if |inputs| > 0 {
      OrphanStaysAlive(Step(s, inputs[0]).s, inputs[1..]);
    }
  }

  /**
   * As written, an empty manifest leaves a running worker that is not in
   * `forks`: neither `cancel` nor any message ever kills it.
   */
  lemma EmptyManifestOrphansWorker(inputs: seq<Input>)
    ensures var o0 := CheckFilesAsWritten(Install(), []);
      && o0.s.alive && !Tracked(o0.s)
      && Run(o0.s, inputs + [Cancel]).s.alive
  {
    var o0 := CheckFilesAsWritten(Install(), []);
    OrphanStaysAlive(o0.s, inputs + [Cancel]);
  }
}
