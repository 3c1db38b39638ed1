/**
 * One unit of work in a worker: the messages it sends its controller while it
 * reads an MD5, copies or downloads, unpacks an archive, and finally reports
 * the unit complete with a true-up credit.
 */
module Worker {
  import opened Wrappers
  import opened Files
  import opened Manifest
  import opened Decision

  /** A worker's message: a log line, a progress credit, or the unit's closing true-up. */
  datatype Message = Text(text: string) | Progress(bytes: int) | Complete(bytes: int)

  /**
   * How unpacking a downloaded archive ends: `extractAllToAsync` reports
   * success or an error through its callback, unless `new AdmZip(dest)` has
   * already thrown because the file on disk is not a readable archive.
   */
  datatype Extraction = Extracted | ExtractFailed(reason: string) | Unreadable

  /**
   * How the I/O of one unit turns out: the chunk sizes of the MD5 read, the
   * chunk sizes streamed by the copy or download, the failure (if any) the
   * transfer ends with, and how the archive extraction ends.
   */
  datatype UnitIo = UnitIo(hashChunks: seq<nat>, chunks: seq<nat>,
                           transferError: Option<string>, extraction: Extraction)

  /** The error `extractAllToAsync` hands to `complete`, if any. */
  function ExtractionError(x: Extraction): Option<string> {
    match x
    case ExtractFailed(m) => Some(m)
    case _ => None
  }

  /** One `progress(d.length)` per chunk. */
  function ProgressEvents(chunks: seq<nat>): (ms: seq<Message>)
    ensures |ms| == |chunks|
    ensures forall i :: 0 <= i < |ms| ==> ms[i] == Progress(chunks[i])
  {
    if |chunks| == 0 then [] else [Progress(chunks[0])] + ProgressEvents(chunks[1..])
  }

  function Sum(chunks: seq<nat>): int {
    if |chunks| == 0 then 0 else chunks[0] + Sum(chunks[1..])
  }

  /** The bytes one message credits. */
  function Credit(m: Message): int {
    match m
    case Text(_) => 0
    case Progress(b) => b
    case Complete(b) => b
  }

  /** The bytes a list of messages credits: its progress and completion amounts. */
  function Credits(ms: seq<Message>): int {
    if |ms| == 0 then 0 else Credit(ms[0]) + Credits(ms[1..])
  }

  /** How many completion messages a list holds. */
  function Completions(ms: seq<Message>): nat {
    if |ms| == 0 then 0 else (if ms[0].Complete? then 1 else 0) + Completions(ms[1..])
  }

  /** `complete()`: the closing true-up, weight less what progress already credited. */
  function Completion(e: Entry, reported: int): seq<Message> {
    [Text("complete: " + e.name), Complete(Weight(e) - reported)]
  }

  /** `complete(err)`: an error sends only a log line, success the true-up. */
  function Settle(e: Entry, err: Option<string>, reported: int): seq<Message> {
    match err
    case Some(m) => [Text("err:" + m)]
    case None => Completion(e, reported)
  }

  /**
   * The messages of the transfer phase, `reported` being what the unit has
   * credited before it. `copyFile` onto itself completes at once; a download
   * of an archive completes only after extraction; a failed download, or an
   * archive that cannot be opened, ends the stream with no closing line at all
   * (see `Crashes`).
   */
  function Transfer(e: Entry, a: Action, io: UnitIo, reported: int): (t: seq<Message>)
    ensures Succeeds(a, io) <==> |t| > 0 && t[|t| - 1].Complete?
    ensures forall i | 0 <= i < |t| - 1 :: !t[i].Complete?
  {
    match a
    case Skip => Completion(e, reported)
    case Copy(from, to) =>
      if from == to then Completion(e, reported)
      else ProgressEvents(io.chunks) + Settle(e, io.transferError, reported + Sum(io.chunks))
    case Download(_, _, unzip) =>
      ProgressEvents(io.chunks) +
        (if Crashes(a, io) then []
         else Settle(e, if unzip then ExtractionError(io.extraction) else None, reported + Sum(io.chunks)))
  }

  /**
   * The worker process dies before `complete(err)` can send anything: a failed
   * download request's error handler calls `fs.unlink` without a callback,
   * which throws, and `new AdmZip(dest)` throws, uncaught, from the
   * response's `end` listener when the download is not a readable archive.
   */
  predicate Crashes(a: Action, io: UnitIo) {
    a.Download? && (io.transferError.Some? || (a.unzip && io.extraction.Unreadable?))
  }

  /** The log line `complete(err)` sends for a failure. */
  predicate IsErrorLine(m: Message) {
    m.Text? && |m.text| >= 4 && m.text[..4] == "err:"
  }

  /** All credit-carrying messages one unit sends, given its plan. */
  function RunUnit(e: Entry, p: Plan, io: UnitIo): (ms: seq<Message>)
    ensures Succeeds(p.action, io) <==> |ms| > 0 && ms[|ms| - 1].Complete?
    ensures forall i | 0 <= i < |ms| - 1 :: !ms[i].Complete?
  {
    var hashing: seq<Message> := if p.hashed then ProgressEvents(io.hashChunks) else [];
    var retract: seq<Message> := if p.retract then [Progress(-(e.size as int))] else [];
    var before := hashing + retract;
    before + Transfer(e, p.action, io, Credits(before))
  }

  /** The unit ends without an error. */
  predicate Succeeds(a: Action, io: UnitIo) {
    match a
    case Skip => true
    case Copy(from, to) => from == to || io.transferError.None?
    case Download(_, _, unzip) => io.transferError.None? && (!unzip || io.extraction.Extracted?)
  }

  lemma {:induction false} CreditsAppend(a: seq<Message>, b: seq<Message>)
    ensures Credits(a + b) == Credits(a) + Credits(b)
    ensures Completions(a + b) == Completions(a) + Completions(b)
  {
    if |a| > 0 {
      assert (a + b)[1..] == a[1..] + b;
      CreditsAppend(a[1..], b);
    } else {
      assert a + b == b;
    }
  }

  lemma {:induction false} ProgressCredits(chunks: seq<nat>)
    ensures Credits(ProgressEvents(chunks)) == Sum(chunks)
    ensures Completions(ProgressEvents(chunks)) == 0
  {
    if |chunks| > 0 {
      ProgressCredits(chunks[1..]);
      assert ProgressEvents(chunks)[1..] == ProgressEvents(chunks[1..]);
    }
  }

  lemma SettleShape(e: Entry, err: Option<string>, reported: int)
    ensures var ms := Settle(e, err, reported);
      && (err.None? ==> Credits(ms) == Weight(e) - reported && Completions(ms) == 1 && ms[|ms| - 1].Complete?)
      && (err.Some? ==> Credits(ms) == 0 && Completions(ms) == 0)
  {
    var ms := Settle(e, err, reported);
    if err.None? {
      assert ms[1..][1..] == [];
      assert Credits(ms[1..]) == Weight(e) - reported;
      assert Completions(ms[1..]) == 1;
    } else {
      assert ms[1..] == [];
    }
  }

  /** The list ends with its only completion message. */
  predicate ClosesOnce(ms: seq<Message>) {
    |ms| > 0 && ms[|ms| - 1].Complete? && Completions(ms[..|ms| - 1]) == 0
  }

  /** A list that closes once is its completion-free head followed by its completion. */
  lemma ClosesOnceSplit(ms: seq<Message>)
    requires ClosesOnce(ms)
    ensures ms == ms[..|ms| - 1] + [Complete(ms[|ms| - 1].bytes)]
    ensures Credits(ms) == Credits(ms[..|ms| - 1]) + ms[|ms| - 1].bytes
  {
    CreditsAppend(ms[..|ms| - 1], [ms[|ms| - 1]]);
    assert ms == ms[..|ms| - 1] + [ms[|ms| - 1]];
  }

  lemma ClosesOnceAppend(a: seq<Message>, b: seq<Message>)
    requires Completions(a) == 0 && ClosesOnce(b)
    ensures ClosesOnce(a + b)
  {
    assert (a + b)[..|a + b| - 1] == a + b[..|b| - 1];
    CreditsAppend(a, b[..|b| - 1]);
  }

  lemma SettleCloses(e: Entry, reported: int)
    ensures ClosesOnce(Settle(e, None, reported))
    ensures Credits(Settle(e, None, reported)) == Weight(e) - reported
  {
    SettleShape(e, None, reported);
    var ms := Settle(e, None, reported);
    assert ms[..|ms| - 1] == [Text("complete: " + e.name)];
  }

  /** A successful transfer phase closes the unit once and credits what is left of its weight. */
  lemma TransferAccounting(e: Entry, a: Action, io: UnitIo, reported: int)
    requires Succeeds(a, io)
    ensures ClosesOnce(Transfer(e, a, io, reported))
    ensures Credits(Transfer(e, a, io, reported)) == Weight(e) - reported
  {
    match a {
      case Skip =>
        SettleCloses(e, reported);
      case Copy(from, to) =>
        if from == to {
          SettleCloses(e, reported);
        } else {
          var rest := reported + Sum(io.chunks);
          ProgressCredits(io.chunks);
          SettleCloses(e, rest);
          CreditsAppend(ProgressEvents(io.chunks), Settle(e, None, rest));
          ClosesOnceAppend(ProgressEvents(io.chunks), Settle(e, None, rest));
        }
      case Download(_, _, unzip) =>
        var rest := reported + Sum(io.chunks);
        ProgressCredits(io.chunks);
        SettleCloses(e, rest);
        CreditsAppend(ProgressEvents(io.chunks), Settle(e, None, rest));
        ClosesOnceAppend(ProgressEvents(io.chunks), Settle(e, None, rest));
    }
  }

  /**
   * The accounting identity of one unit: when it succeeds, its progress and
   * completion credits add up to its weight exactly, and it completes exactly
   * once, with its last message.
   */
  lemma UnitAccounting(e: Entry, p: Plan, io: UnitIo)
    requires Succeeds(p.action, io)
    ensures Credits(RunUnit(e, p, io)) == Weight(e)
    ensures ClosesOnce(RunUnit(e, p, io))
  {
    var hashing: seq<Message> := if p.hashed then ProgressEvents(io.hashChunks) else [];
    var retract: seq<Message> := if p.retract then [Progress(-(e.size as int))] else [];
    var before := hashing + retract;
    ProgressCredits(io.hashChunks);
    CreditsAppend(hashing, retract);
    var t := Transfer(e, p.action, io, Credits(before));
    TransferAccounting(e, p.action, io, Credits(before));
    CreditsAppend(before, t);
    ClosesOnceAppend(before, t);
  }

  /** A failed transfer streams its progress and sends no true-up. */
  lemma FailedTransferNeverCompletes(e: Entry, a: Action, io: UnitIo, reported: int)
    requires !Succeeds(a, io)
    ensures Completions(Transfer(e, a, io, reported)) == 0
  {
    var t := Transfer(e, a, io, reported);
    ProgressCredits(io.chunks);
    if Crashes(a, io) {
      assert t == ProgressEvents(io.chunks) + [];
      assert t == ProgressEvents(io.chunks);
    } else {
      var err := if a.Download? then ExtractionError(io.extraction) else io.transferError;
      var last := Settle(e, err, reported + Sum(io.chunks));
      assert t == ProgressEvents(io.chunks) + last;
      assert last == [Text("err:" + err.value)];
      CreditsAppend(ProgressEvents(io.chunks), last);
    }
  }

  /**
   * How a failed transfer ends: a failed copy, or an extraction that reports
   * its error, on its `err:` line; a failed download or an unreadable archive
   * on nothing, since the worker crashes; the transfer is nothing but
   * progress exactly in that case.
   */
  lemma FailedTransferEnding(e: Entry, a: Action, io: UnitIo, reported: int)
    requires !Succeeds(a, io)
    ensures var t := Transfer(e, a, io, reported);
      && (Crashes(a, io) <==> forall i | 0 <= i < |t| :: t[i].Progress?)
      && (!Crashes(a, io) ==> |t| > 0 && IsErrorLine(t[|t| - 1]))
  {
    var t := Transfer(e, a, io, reported);
    if Crashes(a, io) {
      assert t == ProgressEvents(io.chunks) + [];
      assert t == ProgressEvents(io.chunks);
    } else {
      var err := if a.Download? then ExtractionError(io.extraction) else io.transferError;
      var last := Settle(e, err, reported + Sum(io.chunks));
      assert t == ProgressEvents(io.chunks) + last;
      assert last == [Text("err:" + err.value)];
      assert ("err:" + err.value)[..4] == "err:";
      assert !t[|t| - 1].Progress?;
    }
  }

  /** A unit that fails never sends a completion, so its controller dispatches nothing more. */
  lemma UnitFailureNeverCompletes(e: Entry, p: Plan, io: UnitIo)
    requires !Succeeds(p.action, io)
    ensures Completions(RunUnit(e, p, io)) == 0
  {
    var hashing: seq<Message> := if p.hashed then ProgressEvents(io.hashChunks) else [];
    var retract: seq<Message> := if p.retract then [Progress(-(e.size as int))] else [];
    var before := hashing + retract;
    ProgressCredits(io.hashChunks);
    CreditsAppend(hashing, retract);
    FailedTransferNeverCompletes(e, p.action, io, Credits(before));
    CreditsAppend(before, Transfer(e, p.action, io, Credits(before)));
  }

  /** Completing without transfer, or copying a file onto itself, moves no bytes whatever the I/O would have done. */
  lemma NoTransferIgnoresIo(e: Entry, p: Plan, io: UnitIo)
    requires p.action.Skip? || (p.action.Copy? && p.action.from == p.action.to)
    ensures RunUnit(e, p, io) == RunUnit(e, p, UnitIo(io.hashChunks, [], Some("unused"), Unreadable))
    ensures Succeeds(p.action, io)
  {
  }
}
